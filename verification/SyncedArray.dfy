/** A family of arrays: the root, its narrowed views, and their lazily executed requests, kept in one
    arena: an array refers to its parent and its views by their indices in the arena. */
module SyncedArray {
  import opened ViewTree
  import opened EagerVector
  import opened LazyCells
  import opened FamilyLimits
  import opened VectorLaws

  datatype Key = Plain(place: Place, dtype: DType) | Sub(parent: Key, offset: nat, size: nat)

  datatype Head = NoHead | Head(key: Key, dtype: DType)

  /** A physical copy: a stretch of a memory block, shared by reference, and its at-head flag. */
  datatype Entry = Entry(block: array<Value>, offset: nat, atHead: bool)

  datatype Node = Node(head: Head, zeroLazy: bool, fillLazy: bool, fillValue: Value, zeroing: bool,
                       arrays: map<Key, Entry>)
  {
    predicate HasHeadArray() { head.Head? && arrays != map[] }

    predicate Lazy() { zeroLazy || fillLazy }

    function Quiet(): Node { this.(zeroLazy := false, fillLazy := false) }

    /** The fields that creating an array leaves alone. */
    function Flags(): (bool, bool, Value, bool) { (zeroLazy, fillLazy, fillValue, zeroing) }

    /** This node after an access that found it as `was`: same mark, and no new request. */
    predicate Calmer(was: Node) { zeroing == was.zeroing && (Lazy() ==> Request() == was.Request()) }

    function Marked(flag: bool): Node { this.(zeroing := flag) }

    function Emptied(): Node { Quiet().(arrays := map[]) }

    function OnlyHead(): Node
      requires head.Head? && head.key in arrays
    {
      this.(arrays := map[head.key := arrays[head.key]])
    }

    predicate HeadReady() { head.Head? && head.key in arrays }

    /** What `clear_all_array_descendants` makes of a node; a node without arrays is left alone. */
    function Trimmed(keepHead: bool): Node {
      if !HeadReady() then this else if keepHead then OnlyHead() else Emptied()
    }

    function Request(): Pending {
      if zeroLazy then LazyCells.Request(Zero)
      else if fillLazy then LazyCells.Request(Number(fillValue))
      else Nothing
    }
  }

  ghost function Requests(nodes: seq<Node>): (r: seq<Pending>)
    ensures |r| == |nodes| && forall j :: 0 <= j < |nodes| ==> r[j] == nodes[j].Request()
  {
    seq(|nodes|, j requires 0 <= j < |nodes| => nodes[j].Request())
  }

  /** What is pending in the living nodes. */
  ghost predicate Listed(live: seq<bool>, nodes: seq<Node>, pending: map<nat, Constant>) {
    && |live| == |nodes|
    && (forall j: nat :: j in pending <==> j < |nodes| && live[j] && nodes[j].Lazy())
    && (forall j: nat :: j in pending && j < |nodes| ==> nodes[j].Request() == LazyCells.Request(pending[j]))
  }

  ghost predicate OneRequest(nodes: seq<Node>) {
    forall j :: 0 <= j < |nodes| ==> !(nodes[j].zeroLazy && nodes[j].fillLazy)
  }

  /** `children` lists exactly the living children of every living node, once each. */
  ghost predicate Kin(tree: seq<Link>, live: seq<bool>, children: seq<seq<nat>>) {
    && GoodTree(tree, live)
    && |children| == |tree|
    && (forall p, c {:trigger c in children[p]} :: 0 <= p < |tree| && live[p] ==>
          (c in children[p] <==> 0 < c < |tree| && live[c] && tree[c].parent == p))
    && forall p, s, t :: 0 <= p < |tree| && live[p] && 0 <= s < t < |children[p]| ==>
         children[p][s] != children[p][t]
  }

  /** Living `j` is a descendant of `n`. */
  ghost predicate Under(tree: seq<Link>, live: seq<bool>, j: nat, n: nat)
    requires WellRooted(tree) && |live| == |tree| && j < |tree|
  {
    live[j] && j != n && Below(tree, j, n)
  }

  ghost predicate UnderSome(tree: seq<Link>, live: seq<bool>, j: nat, cs: seq<nat>)
    requires WellRooted(tree) && |live| == |tree| && j < |tree|
  {
    live[j] && exists c :: c in cs && Below(tree, j, c)
  }

  lemma UnderNext(tree: seq<Link>, live: seq<bool>, children: seq<seq<nat>>, n: nat, t: nat, j: nat)
    requires Kin(tree, live, children) && n < |tree| && live[n] && t < |children[n]| && j < |tree|
    ensures UnderSome(tree, live, j, children[n][..t + 1]) <==>
            UnderSome(tree, live, j, children[n][..t]) || (live[j] && Below(tree, j, children[n][t]))
    ensures live[j] && Below(tree, j, children[n][t]) ==> !UnderSome(tree, live, j, children[n][..t])
  {
    var cs, c := children[n], children[n][t];
    assert cs[..t + 1] == cs[..t] + [c];
    assert c in cs;
    if live[j] && Below(tree, j, c) && UnderSome(tree, live, j, cs[..t]) {
      var c' :| c' in cs[..t] && Below(tree, j, c');
      assert c' in cs;
      OneChild(tree, j, c, c');
      assert false;
    }
  }

  lemma UnderAll(tree: seq<Link>, live: seq<bool>, children: seq<seq<nat>>, n: nat, j: nat)
    requires Kin(tree, live, children) && n < |tree| && live[n] && j < |tree|
    ensures UnderSome(tree, live, j, children[n]) <==> Under(tree, live, j, n)
  {
    if UnderSome(tree, live, j, children[n]) {
      var c :| c in children[n] && Below(tree, j, c);
      assert tree[c].parent == n;
      assert n < c && Below(tree, n, n);
      assert Below(tree, c, n);
      BelowTransitive(tree, j, c, n);
      BelowSmaller(tree, j, c);
    }
    if Under(tree, live, j, n) {
      var c := ToChild(tree, live, j, n);
      assert c in children[n];
    }
  }

  /** What a loop over the first `t` children of `n` knows, and how it ends. */
  lemma UnderStep(tree: seq<Link>, live: seq<bool>, children: seq<seq<nat>>, n: nat, t: nat)
    requires Kin(tree, live, children) && n < |tree| && live[n] && t < |children[n]|
    ensures n < children[n][t] < |tree| && live[children[n][t]] && tree[children[n][t]].parent == n
    ensures forall j :: 0 <= j < |tree| ==>
              && (UnderSome(tree, live, j, children[n][..t + 1]) <==>
                  UnderSome(tree, live, j, children[n][..t]) || (live[j] && Below(tree, j, children[n][t])))
              && !(live[j] && Below(tree, j, children[n][t]) && UnderSome(tree, live, j, children[n][..t]))
  {
    assert children[n][t] in children[n];
    forall j: nat | j < |tree| { UnderNext(tree, live, children, n, t, j); }
  }

  lemma UnderEnd(tree: seq<Link>, live: seq<bool>, children: seq<seq<nat>>, n: nat)
    requires Kin(tree, live, children) && n < |tree| && live[n]
    ensures forall j :: 0 <= j < |tree| ==>
              (UnderSome(tree, live, j, children[n][..|children[n]|]) <==> Under(tree, live, j, n))
  {
    assert children[n][..|children[n]|] == children[n];
    forall j: nat | j < |tree| { UnderAll(tree, live, children, n, j); }
  }

  lemma {:induction false} AncestorsLive(tree: seq<Link>, live: seq<bool>, n: nat, p: nat)
    requires WellRooted(tree) && Rooted(tree, live) && n < |tree| && live[n] && Below(tree, n, p)
    ensures live[p]
  {
    if n != p {
      AncestorsLive(tree, live, tree[n].parent, p);
    }
  }

  /** One step up the lineage of `n` skips no ancestor. */
  lemma Upward(tree: seq<Link>, live: seq<bool>, n: nat, p: nat)
    requires WellRooted(tree) && Rooted(tree, live) && n < |tree| && p < |tree|
    requires live[p] && Below(tree, n, p)
    ensures -1 <= tree[p].parent < p
    ensures p > 0 ==> live[tree[p].parent] && Below(tree, n, tree[p].parent)
    ensures forall j :: 0 <= j < p && Below(tree, n, j) ==> j <= tree[p].parent
  {
    forall j: nat | j < p && Below(tree, n, j) ensures tree[p].parent >= j {
      AncestorsLinear(tree, n, j, p);
      BelowSmaller(tree, tree[p].parent, j);
    }
    if p > 0 {
      assert Below(tree, p, tree[p].parent) by {
        assert Below(tree, tree[p].parent, tree[p].parent);
      }
      BelowTransitive(tree, n, p, tree[p].parent);
    }
  }

  /** What is below one of the children of `n` is below `n`. */
  lemma UnderBoth(tree: seq<Link>, live: seq<bool>, children: seq<seq<nat>>, n: nat, t: nat)
    requires Kin(tree, live, children) && n < |tree| && live[n] && t < |children[n]|
    ensures forall j :: 0 <= j < |tree| && UnderSome(tree, live, j, children[n][..t]) ==> Under(tree, live, j, n)
    ensures forall j :: 0 <= j < |tree| && live[j] && Below(tree, j, children[n][t]) ==> Under(tree, live, j, n)
  {
    forall j: nat | j < |tree| && UnderSome(tree, live, j, children[n][..t]) ensures UnderSome(tree, live, j, children[n]) {
      var c :| c in children[n][..t] && Below(tree, j, c);
      assert c in children[n];
    }
    forall j: nat | j < |tree| && live[j] && Below(tree, j, children[n][t]) ensures UnderSome(tree, live, j, children[n]) {
      assert children[n][t] in children[n];
    }
    forall j: nat | j < |tree| { UnderAll(tree, live, children, n, j); }
  }

  /** The head key of node `j` is derived from its parent's, down from the root's. */
  ghost function HeadKey(tree: seq<Link>, rootKey: Key, j: nat): Key
    requires WellRooted(tree) && j < |tree|
  {
    if j == 0 then rootKey else Sub(HeadKey(tree, rootKey, tree[j].parent), tree[j].offset, tree[j].size)
  }

  /** Node `j` has a head array: the root's memory, at the offset summed up to the root. */
  ghost predicate HeadSet(tree: seq<Link>, rootKey: Key, d: DType, mem: array<Value>, j: nat, x: Node)
    requires WellRooted(tree) && j < |tree|
  {
    var key := HeadKey(tree, rootKey, j);
    && x.head == Head(key, d)
    && key in x.arrays
    && x.arrays[key].block == mem
    && x.arrays[key].offset == Start(tree, j)
  }

  ghost predicate HeadsSet(tree: seq<Link>, live: seq<bool>, nodes: seq<Node>, rootKey: Key, d: DType, mem: array<Value>)
    requires WellRooted(tree) && |live| == |nodes| == |tree|
  {
    forall j :: 0 <= j < |tree| && live[j] ==> HeadSet(tree, rootKey, d, mem, j, nodes[j])
  }

  /** Node `j` once it has been given an array on the root's memory. */
  ghost function Linked(tree: seq<Link>, rootKey: Key, d: DType, mem: array<Value>, j: nat, x: Node): Node
    requires WellRooted(tree) && j < |tree|
  {
    var key := HeadKey(tree, rootKey, j);
    x.(head := Head(key, d), arrays := x.arrays[key := Entry(mem, Start(tree, j), false)])
  }

  ghost function LinkedIfBare(tree: seq<Link>, rootKey: Key, d: DType, mem: array<Value>, j: nat, x: Node): Node
    requires WellRooted(tree) && j < |tree|
  {
    if x.arrays == map[] then Linked(tree, rootKey, d, mem, j, x) else x
  }

  lemma RootHead(tree: seq<Link>, key: Key, d: DType, x: Node)
    requires WellRooted(tree) && x.head == Head(key, d) && key in x.arrays && x.arrays[key].offset == 0
    ensures HeadSet(tree, key, d, x.arrays[key].block, 0, x)
  {
  }

  /** Trimming a node that is ready leaves it bare and quiet. */
  lemma Cleared(tree: seq<Link>, live: seq<bool>, before: seq<Node>, cleared: seq<Node>)
    requires WellRooted(tree) && |live| == |before| == |cleared| == |tree|
    requires forall j :: 0 < j < |tree| && live[j] ==> before[j].HeadReady() && cleared[j] == before[j].Trimmed(false)
    ensures forall j :: 0 < j < |tree| && live[j] ==> cleared[j].arrays == map[]
  {
  }

  /** Bare nodes that have been linked to the root's memory have their head there, and nothing else. */
  lemma LinkedAnew(tree: seq<Link>, live: seq<bool>, before: seq<Node>, cleared: seq<Node>, after: seq<Node>, key: Key, d: DType,
                   block: array<Value>)
    requires WellRooted(tree) && |live| == |before| == |cleared| == |after| == |tree|
    requires HeadSet(tree, key, d, block, 0, before[0]) && after[0] == before[0]
    requires forall j :: 0 < j < |tree| && live[j] ==> before[j].HeadReady() && cleared[j] == before[j].Trimmed(false)
    requires forall j :: 0 < j < |tree| && live[j] ==> after[j] == LinkedIfBare(tree, key, d, block, j, cleared[j])
    ensures HeadsSet(tree, live, after, key, d, block)
    ensures forall j, key' :: j != 0 ==> !Spare(live, after, j, key')
    ensures forall j :: 0 < j < |tree| && live[j] ==> !after[j].Lazy() && after[j].zeroing == before[j].zeroing
  {
    hide HeadSet, HeadKey, Start, Linked;
    forall j: nat | 0 < j < |tree| && live[j]
      ensures HeadSet(tree, key, d, block, j, after[j]) && after[j].head.Head? && after[j].arrays.Keys == {after[j].head.key}
      ensures !after[j].Lazy() && after[j].zeroing == before[j].zeroing
    {
      LinkedNode(tree, key, d, block, j, before[j], after[j]);
    }
  }

  lemma LinkedNode(tree: seq<Link>, key: Key, d: DType, block: array<Value>, j: nat, was: Node, now: Node)
    requires WellRooted(tree) && j < |tree| && was.HeadReady() && now == LinkedIfBare(tree, key, d, block, j, was.Trimmed(false))
    ensures HeadSet(tree, key, d, block, j, now) && now.head.Head? && now.arrays.Keys == {now.head.key}
    ensures !now.Lazy() && now.zeroing == was.zeroing
  {
    hide HeadKey, Start;
  }

  /** Moving the root's head and relinking the views makes no request and no mark. */
  lemma Followed(live: seq<bool>, before: seq<Node>, synced: seq<Node>, moved: seq<Node>, after: seq<Node>)
    requires |live| == |before| == |synced| == |moved| == |after| > 0 && OneRequest(synced)
    requires moved == synced[0 := synced[0].(head := moved[0].head)] && moved[0].HeadReady()
    requires forall j :: 0 <= j < |synced| ==> synced[j].Calmer(before[j])
    requires after[0] == moved[0] || after[0] == moved[0].OnlyHead()
    requires forall j :: 0 < j < |live| && live[j] ==> !after[j].Lazy() && after[j].zeroing == moved[j].zeroing
    requires forall j :: 0 < j < |live| && !live[j] ==> after[j] == moved[j]
    ensures OneRequest(after) && forall j :: 0 <= j < |live| && live[j] ==> after[j].Calmer(before[j])
  {
  }

  /** The code adds only the parent's own offset; this is when that is the sum up to the root. */
  ghost predicate Shallow(tree: seq<Link>)
    requires WellRooted(tree)
  {
    forall i {:trigger Start(tree, tree[i].parent)} :: 0 < i < |tree| ==> Start(tree, tree[i].parent) == tree[tree[i].parent].offset
  }

  /** The number in cell `k` once every request has been executed at element type `d`. */
  ghost function Cell(conv: Convert, d: DType, tree: seq<Link>, live: seq<bool>, nodes: seq<Node>, mem: seq<Value>, k: nat): Value
    requires GoodTree(tree, live) && |nodes| == |tree| && k < |mem|
  {
    var p := Deepest(tree, live, Requests(nodes), k);
    if p.Request? then Realize(conv, d, p.c) else mem[k]
  }

  /** The whole vector, as eager execution would have it. */
  ghost function Logical(conv: Convert, d: DType, tree: seq<Link>, live: seq<bool>, nodes: seq<Node>, mem: seq<Value>): (r: seq<Value>)
    requires GoodTree(tree, live) && |nodes| == |tree|
    ensures |r| == |mem|
    ensures forall k :: 0 <= k < |mem| ==> r[k] == Cell(conv, d, tree, live, nodes, mem, k)
  {
    seq(|mem|, k requires 0 <= k < |mem| => Cell(conv, d, tree, live, nodes, mem, k))
  }

  /** The whole vector while no element type is known: the root has a request, so every cell has. */
  ghost function ConstantCells(tree: seq<Link>, live: seq<bool>, nodes: seq<Node>): (r: seq<Constant>)
    requires GoodTree(tree, live) && |nodes| == |tree|
    ensures |r| == tree[0].size
  {
    seq(tree[0].size, k requires 0 <= k < tree[0].size =>
      var p := Deepest(tree, live, Requests(nodes), k); if p.Request? then p.c else Zero)
  }

  /** Executing the request of `n`, when no ancestor has one, changes no logical cell. */
  lemma ExecutedInPlace(conv: Convert, d: DType, tree: seq<Link>, live: seq<bool>, nodes: seq<Node>, n: nat,
                        mem: seq<Value>, mem': seq<Value>)
    requires GoodTree(tree, live) && |nodes| == |tree| && n < |tree| && live[n] && |mem| == |mem'| == tree[0].size
    requires forall j :: 0 <= j < n && Below(tree, n, j) ==> !nodes[j].Lazy()
    requires forall k :: 0 <= k < |mem| ==>
      mem'[k] == if Covers(tree, n, k) && nodes[n].Lazy() then Realize(conv, d, nodes[n].Request().c) else mem[k]
    ensures Logical(conv, d, tree, live, nodes[n := nodes[n].Quiet()], mem') == Logical(conv, d, tree, live, nodes, mem)
  {
    var pend, nodes' := Requests(nodes), nodes[n := nodes[n].Quiet()];
    assert Requests(nodes') == pend[n := Nothing];
    forall j | 0 <= j < |tree| && live[j] && j != n && Below(tree, n, j) ensures pend[j].Nothing? {
      BelowSmaller(tree, n, j);
    }
    forall k | 0 <= k < |mem|
      ensures Cell(conv, d, tree, live, nodes', mem', k) == Cell(conv, d, tree, live, nodes, mem, k)
    {
      if Covers(tree, n, k) {
        RequestExecuted(tree, live, pend, n, k);
      } else {
        RequestElsewhere(tree, live, pend, n, k);
      }
    }
  }

  /** `key` names a copy of node `j` other than its head. */
  ghost predicate Spare(live: seq<bool>, nodes: seq<Node>, j: int, key: Key)
    requires |live| == |nodes|
  {
    0 <= j < |nodes| && live[j] && key in nodes[j].arrays && nodes[j].head.Head? && key != nodes[j].head.key
  }

  ghost predicate SparesAtHead(live: seq<bool>, nodes: seq<Node>, n: nat, key: Key)
    requires |live| == |nodes|
  {
    forall j, key' {:trigger Spare(live, nodes, j, key')} ::
      Spare(live, nodes, j, key') && (j, key') != (n, key) ==> nodes[j].arrays[key'].atHead
  }

  ghost predicate SameSpares(live: seq<bool>, nodes: seq<Node>, nodes': seq<Node>)
    requires |live| == |nodes| == |nodes'|
  {
    forall j, key {:trigger Spare(live, nodes, j, key)} {:trigger Spare(live, nodes', j, key)} ::
      && Spare(live, nodes, j, key) == Spare(live, nodes', j, key)
      && (Spare(live, nodes, j, key) ==> nodes[j].arrays[key] == nodes'[j].arrays[key])
  }

  ghost predicate AllAtHead(live: seq<bool>, nodes: seq<Node>)
    requires |live| == |nodes|
  {
    forall j, key {:trigger Spare(live, nodes, j, key)} :: Spare(live, nodes, j, key) ==> nodes[j].arrays[key].atHead
  }

  /** No node has a copy besides its head. */
  ghost predicate Slim(live: seq<bool>, nodes: seq<Node>)
    requires |live| == |nodes|
  {
    forall j, key :: !Spare(live, nodes, j, key)
  }

  lemma SettledTwice(conv: Convert, store: Store, place: Place, d: DType)
    ensures Settle(conv, Settle(conv, store, place, d), place, d) == Settle(conv, store, place, d)
  {
  }

  /** `j` lies below `n`, or below an ancestor of `n` with a request: an access to `n` executes its request. */
  ghost predicate Stirred(tree: seq<Link>, live: seq<bool>, nodes: seq<Node>, n: nat, j: nat)
    requires WellRooted(tree) && |live| == |nodes| == |tree| && n < |tree| && j < |tree|
  {
    Below(tree, j, n) || exists a :: 0 <= a < |tree| && live[a] && nodes[a].Lazy() && Below(tree, n, a) && Below(tree, j, a)
  }

  /** Exactly the requests that an access to `n` executes are gone. */
  ghost predicate Flushed(tree: seq<Link>, live: seq<bool>, before: seq<Node>, after: seq<Node>, n: nat)
    requires WellRooted(tree) && |live| == |before| == |after| == |tree| && n < |tree|
  {
    forall j :: 0 <= j < |tree| && live[j] ==> (after[j].Lazy() <==> before[j].Lazy() && !Stirred(tree, live, before, n, j))
  }

  ghost predicate SameLazy(before: seq<Node>, after: seq<Node>) {
    |after| == |before| && forall j :: 0 <= j < |before| ==> (after[j].Lazy() <==> before[j].Lazy())
  }

  lemma FlushedBetween(tree: seq<Link>, live: seq<bool>, before: seq<Node>, before': seq<Node>, after: seq<Node>, after': seq<Node>, n: nat)
    requires WellRooted(tree) && |live| == |before| == |after| == |tree| && n < |tree|
    requires SameLazy(before, before') && SameLazy(after, after') && Flushed(tree, live, before', after, n)
    ensures Flushed(tree, live, before, after', n)
  {
    hide Below;
    forall j: nat | j < |tree| ensures Stirred(tree, live, before, n, j) <==> Stirred(tree, live, before', n, j) {
    }
  }

  /** When no request is left, or only below `n` there was any, all that was to be executed has been. */
  lemma FlushedAll(tree: seq<Link>, live: seq<bool>, before: seq<Node>, after: seq<Node>, n: nat)
    requires WellRooted(tree) && |live| == |before| == |after| == |tree| && n < |tree|
    requires forall j :: 0 <= j < |tree| && live[j] ==> !after[j].Lazy()
    requires n == 0 || (live[0] && before[0].Lazy())
    ensures Flushed(tree, live, before, after, n)
  {
    forall j: nat | j < |tree| ensures Stirred(tree, live, before, n, j) {
      EveryoneBelowRoot(tree, j);
      EveryoneBelowRoot(tree, n);
    }
  }

  /** A request topmost among `n` and its ancestors, or `n` itself, is what an access to `n` starts from. */
  lemma StirredFrom(tree: seq<Link>, live: seq<bool>, nodes: seq<Node>, n: nat, z: nat, j: nat)
    requires WellRooted(tree) && Rooted(tree, live) && |nodes| == |tree| && n < |tree| && live[n] && j < |tree|
    requires z <= n && live[z] && Below(tree, n, z) && (z == n || nodes[z].Lazy())
    requires forall i :: 0 <= i < z && Below(tree, z, i) ==> !nodes[i].Lazy()
    ensures Stirred(tree, live, nodes, n, j) <==> Below(tree, j, z)
  {
    if Stirred(tree, live, nodes, n, j) {
      if Below(tree, j, n) {
        BelowTransitive(tree, j, n, z);
      } else {
        var a :| 0 <= a < |tree| && live[a] && nodes[a].Lazy() && Below(tree, n, a) && Below(tree, j, a);
        if a < z {
          AncestorsLinear(tree, n, a, z);
        } else {
          AncestorsLinear(tree, n, z, a);
          BelowTransitive(tree, j, a, z);
        }
      }
    }
  }

  /** A spare copy has its own block; at head, the block holds the converted logical value. */
  ghost predicate SpareHolds(conv: Convert, d: DType, to: DType, e: Entry, size: nat, mem: array<Value>,
                             repr: set<array<Value>>, expected: seq<Value>)
    reads repr
  {
    && e.block in repr && e.block != mem && e.offset == 0 && e.block.Length == size
    && (e.atHead ==> e.block[..] == ConvertAll(conv, d, to, expected))
  }

  /** No other spare copy uses the block of this one. */
  ghost predicate Unshared(live: seq<bool>, nodes: seq<Node>, n: nat, key: Key)
    requires |live| == |nodes| && n < |nodes| && key in nodes[n].arrays
  {
    forall j, key' {:trigger Spare(live, nodes, j, key')} ::
      Spare(live, nodes, j, key') && (j, key') != (n, key) ==> nodes[j].arrays[key'].block != nodes[n].arrays[key].block
  }

  ghost predicate SparesHold(conv: Convert, d: DType, tree: seq<Link>, live: seq<bool>, nodes: seq<Node>,
                             vector: seq<Value>, mem: array<Value>, repr: set<array<Value>>)
    reads repr
    requires WellRooted(tree) && |live| == |nodes| == |tree| && |vector| == tree[0].size
  {
    forall j, key {:trigger Spare(live, nodes, j, key)} :: Spare(live, nodes, j, key) ==>
      key.Plain? && SpareHolds(conv, d, key.dtype, nodes[j].arrays[key], tree[j].size, mem, repr, Interval(tree, vector, j))
  }

  /** `Array::zero` and `Array::fill` on a stretch of a block. */
  method FillRange(block: array<Value>, offset: nat, size: nat, x: Value)
    requires offset + size <= block.Length
    modifies block
    ensures forall k :: 0 <= k < block.Length ==>
              block[k] == if offset <= k < offset + size then x else old(block[k])
  {
    for i := offset to offset + size
      invariant forall k :: 0 <= k < block.Length ==> block[k] == if offset <= k < i then x else old(block[k])
    {
      block[i] := x;
    }
  }

  /** `Array::copy_from`, with conversion; a stretch may be copied onto itself. */
  method CopyRange(conv: Convert, from: DType, to: DType, src: array<Value>, srcOffset: nat,
                   dst: array<Value>, dstOffset: nat, size: nat)
    requires srcOffset + size <= src.Length && dstOffset + size <= dst.Length
    requires src != dst || srcOffset == dstOffset
    modifies dst
    ensures forall k :: 0 <= k < dst.Length ==>
              dst[k] == if dstOffset <= k < dstOffset + size then conv(from, to, old(src[srcOffset + k - dstOffset])) else old(dst[k])
  {
    for i := 0 to size
      invariant forall k :: 0 <= k < dst.Length ==>
                  dst[k] == if dstOffset <= k < dstOffset + i then conv(from, to, old(src[srcOffset + k - dstOffset])) else old(dst[k])
    {
      dst[dstOffset + i] := conv(from, to, src[srcOffset + i]);
    }
  }

  /** Copying a stretch onto itself at its own type changes nothing. */
  method CopyOntoItself(conv: Convert, d: DType, block: array<Value>, offset: nat, size: nat)
    requires Faithful(conv) && offset + size <= block.Length
    modifies block
    ensures block[..] == old(block[..])
  {
    ghost var was := block[..];
    CopyRange(conv, d, d, block, offset, block, offset, size);
    forall k | 0 <= k < block.Length ensures block[k] == was[k] {
      assert conv(d, d, was[k]) == was[k];
    }
  }

  /** Where no node over a cell has a request, the memory is the truth. */
  lemma QuietCells(conv: Convert, d: DType, tree: seq<Link>, live: seq<bool>, nodes: seq<Node>, n: nat, mem: seq<Value>)
    requires GoodTree(tree, live) && |nodes| == |tree| && n < |tree| && live[n] && |mem| == tree[0].size
    requires forall j :: 0 <= j < |tree| && live[j] && (Below(tree, j, n) || Below(tree, n, j)) ==> !nodes[j].Lazy()
    ensures forall k :: 0 <= k < |mem| && Covers(tree, n, k) ==> Cell(conv, d, tree, live, nodes, mem, k) == mem[k]
  {
    forall k | 0 <= k < |mem| && Covers(tree, n, k) ensures Cell(conv, d, tree, live, nodes, mem, k) == mem[k] {
      var over := Over(tree, live, Requests(nodes), k);
      forall j | 0 <= j < |tree| ensures over[j].Nothing? {
        if live[j] && Covers(tree, j, k) {
          if j <= n { CoverChain(tree, live, j, n, k); } else { CoverChain(tree, live, n, j, k); }
        }
      }
      var j := LastIs(over);
    }
  }

  lemma TwoKeys<K, V>(m: map<K, V>, a: K, b: K)
    requires a in m && b in m && a != b
    ensures |m| > 1
  {
    assert {a, b} <= m.Keys;
    var rest := m.Keys - {a};
    assert b in rest && |rest| == |m.Keys| - 1;
  }

  /** A new copy does not disturb the others. */
  lemma SpareAdded(conv: Convert, d: DType, tree: seq<Link>, live: seq<bool>, nodes: seq<Node>, nodes': seq<Node>,
                   vector: seq<Value>, mem: array<Value>, repr: set<array<Value>>, repr': set<array<Value>>, n: nat, key: Key)
    requires WellRooted(tree) && |live| == |nodes| == |tree| && |vector| == tree[0].size && n < |tree| && repr <= repr'
    requires SparesHold(conv, d, tree, live, nodes, vector, mem, repr) && AllAtHead(live, nodes)
    requires key !in nodes[n].arrays && key.Plain? && |nodes'| == |nodes| && key in nodes'[n].arrays
    requires var e := nodes'[n].arrays[key];
             nodes' == nodes[n := nodes[n].(arrays := nodes[n].arrays[key := e])]
             && e.block in repr' && e.block != mem && e.offset == 0 && e.block.Length == tree[n].size && !e.atHead
    requires nodes'[n].arrays[key].block !in repr
    ensures SparesHold(conv, d, tree, live, nodes', vector, mem, repr') && SparesAtHead(live, nodes', n, key)
    ensures Unshared(live, nodes', n, key)
  {
    forall j, key' | Spare(live, nodes', j, key') && (j, key') != (n, key)
      ensures Spare(live, nodes, j, key') && nodes'[j].arrays[key'] == nodes[j].arrays[key']
    {
    }
  }

  /** Marking one array at head, when it holds the right values, makes every copy right. */
  lemma MarkedAtHead(conv: Convert, tree: seq<Link>, live: seq<bool>, nodes: seq<Node>, nodes': seq<Node>,
                     vector: seq<Value>, head: Head, mem: array<Value>, repr: set<array<Value>>, n: nat, key: Key)
    requires WellRooted(tree) && |live| == |nodes| == |tree| && |vector| == tree[0].size && n < |tree| && live[n] && head.Head?
    requires HeadsSet(tree, live, nodes, head.key, head.dtype, mem)
    requires SparesHold(conv, head.dtype, tree, live, nodes, vector, mem, repr) && SparesAtHead(live, nodes, n, key)
    requires key in nodes[n].arrays
    requires nodes' == nodes[n := nodes[n].(arrays := nodes[n].arrays[key := nodes[n].arrays[key].(atHead := true)])]
    requires Spare(live, nodes, n, key) ==>
               key.Plain? && nodes[n].arrays[key].block in repr &&
               nodes[n].arrays[key].block[..] == ConvertAll(conv, head.dtype, key.dtype, Interval(tree, vector, n))
    ensures HeadsSet(tree, live, nodes', head.key, head.dtype, mem)
    ensures SparesHold(conv, head.dtype, tree, live, nodes', vector, mem, repr) && AllAtHead(live, nodes')
    ensures Requests(nodes') == Requests(nodes)
  {
    forall j | 0 <= j < |tree| && live[j] ensures HeadSet(tree, head.key, head.dtype, mem, j, nodes'[j]) {
      assert HeadSet(tree, head.key, head.dtype, mem, j, nodes[j]);
    }
    forall j, key' | Spare(live, nodes', j, key')
      ensures Spare(live, nodes, j, key')
      ensures (j, key') != (n, key) ==> nodes'[j].arrays[key'] == nodes[j].arrays[key']
    {
    }
  }

  /** Nothing about arrays depends on the zeroing marks. */
  lemma MarksOnly(tree: seq<Link>, live: seq<bool>, nodes: seq<Node>, nodes': seq<Node>, key: Key, d: DType, mem: array<Value>)
    requires WellRooted(tree) && |live| == |nodes| == |nodes'| == |tree|
    requires forall j :: 0 <= j < |tree| ==> nodes'[j] == nodes[j] || nodes'[j] == nodes[j].Marked(false) || nodes'[j] == nodes[j].Marked(true)
    requires HeadsSet(tree, live, nodes, key, d, mem)
    ensures HeadsSet(tree, live, nodes', key, d, mem) && SameSpares(live, nodes, nodes') && Requests(nodes) == Requests(nodes')
  {
    forall j | 0 <= j < |tree| && live[j] ensures HeadSet(tree, key, d, mem, j, nodes'[j]) {
      assert HeadSet(tree, key, d, mem, j, nodes[j]);
    }
    forall j | 0 <= j < |tree| ensures Requests(nodes)[j] == Requests(nodes')[j] {
      assert nodes[j].Request() == nodes'[j].Request();
    }
  }

  /** `nodes'` is `nodes` with a request for `c` on `n` and none below it. */
  ghost predicate Requested(tree: seq<Link>, live: seq<bool>, nodes: seq<Node>, nodes': seq<Node>, n: nat, c: Constant)
    requires WellRooted(tree) && |live| == |nodes| == |nodes'| == |tree| && n < |tree|
  {
    && nodes'[n].Request() == LazyCells.Request(c)
    && forall j :: 0 <= j < |tree| && j != n && live[j] ==>
         nodes'[j].Request() == if Below(tree, j, n) then Nothing else nodes[j].Request()
  }

  lemma RequestedVector(conv: Convert, d: DType, tree: seq<Link>, live: seq<bool>, nodes: seq<Node>, nodes': seq<Node>,
                        mem: seq<Value>, n: nat, c: Constant)
    requires GoodTree(tree, live) && |nodes| == |nodes'| == |tree| && n < |tree| && live[n] && |mem| == tree[0].size
    requires Requested(tree, live, nodes, nodes', n, c)
    ensures Logical(conv, d, tree, live, nodes', mem)
         == Overwrite(tree, Logical(conv, d, tree, live, nodes, mem), n, Constantly(tree[n].size, Realize(conv, d, c)))
  {
    forall k: nat | k < |mem| {
      RequestOverrides(tree, live, Requests(nodes), Requests(nodes'), n, k);
    }
  }

  lemma RequestedCells(tree: seq<Link>, live: seq<bool>, nodes: seq<Node>, nodes': seq<Node>, n: nat, c: Constant)
    requires GoodTree(tree, live) && |nodes| == |nodes'| == |tree| && n < |tree| && live[n]
    requires Requested(tree, live, nodes, nodes', n, c)
    ensures ConstantCells(tree, live, nodes')
         == Overwrite(tree, ConstantCells(tree, live, nodes), n, Constantly(tree[n].size, c))
  {
    forall k: nat | k < tree[0].size {
      RequestOverrides(tree, live, Requests(nodes), Requests(nodes'), n, k);
    }
  }

  /** Overwriting `n` cannot be seen from a node outside its lineage. */
  lemma OverwriteBeyond<T>(tree: seq<Link>, live: seq<bool>, s: seq<T>, n: nat, data: seq<T>, j: nat)
    requires GoodTree(tree, live) && n < |tree| && j < |tree| && live[n] && live[j]
    requires |s| == tree[0].size && |data| == tree[n].size
    requires !Below(tree, j, n) && !Below(tree, n, j)
    ensures Interval(tree, Overwrite(tree, s, n, data), j) == Interval(tree, s, j)
    ensures forall k :: 0 <= k < |s| && Covers(tree, j, k) ==> !Covers(tree, n, k)
  {
    forall k | 0 <= k < |s| && Covers(tree, j, k) ensures !Covers(tree, n, k) {
      if Covers(tree, n, k) {
        if j <= n { CoverChain(tree, live, j, n, k); } else { CoverChain(tree, live, n, j, k); }
        assert false;
      }
    }
    EveryoneBelowRoot(tree, j);
    BelowInside(tree, j, 0);
  }

  /** Every node related to `n` keeps its head array alone; the others keep everything. */
  ghost predicate LineageTrimmed(tree: seq<Link>, live: seq<bool>, nodes: seq<Node>, nodes': seq<Node>, n: nat)
    requires WellRooted(tree) && |live| == |nodes| == |nodes'| == |tree| && n < |tree|
  {
    forall j :: 0 <= j < |tree| && live[j] ==>
      && nodes'[j].head == nodes[j].head
      && nodes'[j].arrays == (if Below(tree, j, n) || Below(tree, n, j) then nodes[j].Trimmed(true) else nodes[j]).arrays
  }

  lemma TrimmedLineage(conv: Convert, tree: seq<Link>, live: seq<bool>, nodes: seq<Node>, nodes': seq<Node>, n: nat,
                       head: Head, vector: seq<Value>, mem: array<Value>, repr: set<array<Value>>, data: seq<Value>)
    requires GoodTree(tree, live) && |live| == |nodes| == |nodes'| == |tree| && n < |tree| && live[n] && head.Head?
    requires LineageTrimmed(tree, live, nodes, nodes', n) && |vector| == tree[0].size && |data| == tree[n].size
    requires HeadsSet(tree, live, nodes, head.key, head.dtype, mem)
    requires SparesHold(conv, head.dtype, tree, live, nodes, vector, mem, repr) && AllAtHead(live, nodes)
    ensures HeadsSet(tree, live, nodes', head.key, head.dtype, mem) && AllAtHead(live, nodes')
    ensures SparesHold(conv, head.dtype, tree, live, nodes', Overwrite(tree, vector, n, data), mem, repr)
  {
    forall j | 0 <= j < |tree| && live[j]
      ensures HeadSet(tree, head.key, head.dtype, mem, j, nodes'[j])
      ensures Below(tree, j, n) || Below(tree, n, j) ==> nodes'[j].arrays.Keys == {nodes'[j].head.key}
    {
      assert HeadSet(tree, head.key, head.dtype, mem, j, nodes[j]);
    }
    forall j, key | Spare(live, nodes', j, key)
      ensures !Below(tree, j, n) && !Below(tree, n, j)
      ensures Spare(live, nodes, j, key) && nodes'[j].arrays[key] == nodes[j].arrays[key]
      ensures Interval(tree, Overwrite(tree, vector, n, data), j) == Interval(tree, vector, j)
    {
      OverwriteBeyond(tree, live, vector, n, data, j);
    }
  }

  lemma ZeroSettles(conv: Convert, tree: seq<Link>, live: seq<bool>, nodes: seq<Node>, store: Store, place: Place, d: DType)
    requires WellRooted(tree) && |live| == |nodes| == |tree|
    requires forall j :: 0 <= j < |tree| && live[j] && nodes[j].zeroing ==> AllZero(tree, store, j)
    ensures forall j :: 0 <= j < |tree| && live[j] && nodes[j].zeroing ==> AllZero(tree, Settle(conv, store, place, d), j)
  {
    forall j | 0 <= j < |tree| && live[j] && nodes[j].zeroing ensures AllZero(tree, Settle(conv, store, place, d), j) {
      assert AllZero(tree, store, j);
    }
  }

  /** A caller's writes through a handle. */
  method WriteRange(block: array<Value>, offset: nat, data: seq<Value>)
    requires offset + |data| <= block.Length
    modifies block
    ensures forall k :: 0 <= k < block.Length ==>
              block[k] == if offset <= k < offset + |data| then data[k - offset] else old(block[k])
  {
    for i := 0 to |data|
      invariant forall k :: 0 <= k < block.Length ==>
                  block[k] == if offset <= k < offset + i then data[k - offset] else old(block[k])
    {
      block[offset + i] := data[i];
    }
  }

  /** Writing the stretch of `n` where no request is pending writes exactly its cells. */
  lemma WrittenThrough(conv: Convert, d: DType, tree: seq<Link>, live: seq<bool>, nodes: seq<Node>, n: nat,
                       mem: seq<Value>, mem': seq<Value>, data: seq<Value>)
    requires GoodTree(tree, live) && |nodes| == |tree| && n < |tree| && live[n] && |mem| == |mem'| == tree[0].size
    requires |data| == tree[n].size
    requires forall j :: 0 <= j < |tree| && live[j] && (Below(tree, j, n) || Below(tree, n, j)) ==> !nodes[j].Lazy()
    requires forall k :: 0 <= k < |mem| ==> mem'[k] == if Covers(tree, n, k) then data[k - Start(tree, n)] else mem[k]
    ensures Logical(conv, d, tree, live, nodes, mem')
         == Overwrite(tree, Logical(conv, d, tree, live, nodes, mem), n, data)
  {
    QuietCells(conv, d, tree, live, nodes, n, mem');
  }

  /** A cast of the root followed by a write of all of it leaves the data, whatever was there. */
  lemma CastMatches(conv: Convert, e: Eager, n: nat, place: Place, d: DType, writeOnly: bool, data: seq<Value>,
                    store: Store, vals: seq<Value>)
    requires ValidEager(e) && LiveNode(e, n) && |data| == e.tree[n].size && !CastRefused(e, n, place, d)
    requires n == 0 ==> store == Elements(place, d, data)
    requires n == 0 && !writeOnly ==>
               vals == var s := Settle(conv, e.store, place, d); ConvertAll(conv, s.dtype, d, s.vals)
    requires n != 0 ==> var s := Settle(conv, e.store, place, d);
               store == s.(vals := Overwrite(e.tree, s.vals, n, data)) && (!writeOnly ==> vals == Interval(e.tree, s.vals, n))
    ensures Execute(conv, e, EagerVector.Op.CastAndWrite(n, place, d, writeOnly, data))
         == (e.(store := store, pending := Unexecuted(e, n)), if writeOnly then Done else Values(vals))
  {
    if n == 0 {
      var s := CastStore(conv, e, n, place, d);
      assert Overwrite(e.tree, s.vals, n, data) == data;
      assert Interval(e.tree, s.vals, n) == s.vals;
    }
  }

  /** The tree is a tree after a view has been added below `p`. */
  lemma KinAdded(tree: seq<Link>, live: seq<bool>, children: seq<seq<nat>>, p: nat, size: nat, offset: nat)
    requires Kin(tree, live, children) && Shallow(tree) && p < |tree| && live[p] && offset + size <= tree[p].size
    requires Start(tree, p) == tree[p].offset
    requires forall c :: c in children[p] ==> 0 < c < |tree| && !RangesClash(tree[c].offset, tree[c].size, offset, size)
    ensures Kin(tree + [Link(p, offset, size)], live + [true], children[p := children[p] + [|tree|]] + [[]])
    ensures Shallow(tree + [Link(p, offset, size)])
  {
    forall i | 0 < i < |tree| && live[i] && tree[i].parent == p
      ensures !RangesClash(tree[i].offset, tree[i].size, offset, size)
    {
      assert i in children[p];
    }
    NarrowKeepsTree(tree, live, p, size, offset);
    ShallowAdded(tree, Link(p, offset, size));
    ChildrenAdded(tree, live, children, p, Link(p, offset, size));
  }

  lemma ShallowAdded(tree: seq<Link>, link: Link)
    requires WellRooted(tree) && WellRooted(tree + [link]) && Shallow(tree)
    requires 0 <= link.parent < |tree| && Start(tree, link.parent) == tree[link.parent].offset
    ensures Shallow(tree + [link])
  {
    forall i | 0 < i < |tree| + 1
      ensures var q := (tree + [link])[i].parent; Start(tree + [link], q) == (tree + [link])[q].offset
    {
      StartPrefix(tree, [link], (tree + [link])[i].parent);
      assert i < |tree| ==> Start(tree, tree[i].parent) == tree[tree[i].parent].offset;
    }
  }

  lemma ChildrenAdded(tree: seq<Link>, live: seq<bool>, children: seq<seq<nat>>, p: nat, link: Link)
    requires Kin(tree, live, children) && GoodTree(tree + [link], live + [true])
    requires link.parent == p && p < |tree| && live[p]
    ensures Kin(tree + [link], live + [true], children[p := children[p] + [|tree|]] + [[]])
  {
    var tree', live', children' := tree + [link], live + [true], children[p := children[p] + [|tree|]] + [[]];
    forall q, c | 0 <= q < |tree'| && live'[q]
      ensures c in children'[q] <==> 0 < c < |tree'| && live'[c] && tree'[c].parent == q
    {
      if q < |tree| {
        assert c in children[q] <==> 0 < c < |tree| && live[c] && tree[c].parent == q;
      }
    }
    forall q, s, t | 0 <= q < |tree'| && live'[q] && 0 <= s < t < |children'[q]| ensures children'[q][s] != children'[q][t] {
      if q == p && t == |children[p]| {
        assert children[p][s] in children[p];
      }
    }
  }

  /** Distinct elements. */
  ghost predicate Distinct(s: seq<nat>) {
    forall i, j :: 0 <= i < j < |s| ==> s[i] != s[j]
  }

  /** `remove_child`: the others stay, in order. */
  method Without(s: seq<nat>, n: nat) returns (kept: seq<nat>)
    requires Distinct(s)
    ensures Distinct(kept)
    ensures forall c :: c in kept <==> c in s && c != n
  {
    kept := [];
    for t := 0 to |s|
      invariant Distinct(kept)
      invariant forall c :: c in kept <==> c in s[..t] && c != n
    {
      assert s[..t + 1] == s[..t] + [s[t]];
      if s[t] != n {
        assert s[t] !in s[..t];
        kept := kept + [s[t]];
      }
    }
    assert s[..|s|] == s;
  }

  lemma NoneOrSome(s: seq<nat>)
    ensures s == [] || exists c :: c in s
  {
    assert s == [] || s[0] in s;
  }

  /** `n` asks for nothing, has no cells, or asks for what the request above it asks for. */
  ghost predicate Spared(conv: Convert, store: Store, tree: seq<Link>, live: seq<bool>, nodes: seq<Node>, n: nat)
    requires GoodTree(tree, live) && |nodes| == |tree| && n < |tree|
  {
    var above := Deepest(tree, live, Requests(nodes), Start(tree, n));
    nodes[n].Request().Nothing? || tree[n].size == 0 || (above.Request? && SameNumber(conv, store, above.c, nodes[n].Request().c))
  }

  lemma ListedWithout(live: seq<bool>, nodes: seq<Node>, pending: map<nat, Constant>, n: nat)
    requires Listed(live, nodes, pending) && n < |live|
    ensures Listed(live[n := false], nodes, pending - {n})
  {
  }

  lemma NarrowAllowed(conv: Convert, e: Eager, p: nat, size: nat, offset: nat)
    requires ValidEager(e) && p < |e.tree| && |e.live| == |e.tree| && e.live[p] && offset + size <= e.tree[p].size
    requires Start(e.tree, p) == e.tree[p].offset
    ensures Allowed(conv, e, EagerVector.Op.Narrow(p, size, offset))
  {
  }

  /** Such a node can die without changing any cell. */
  lemma NodeDies(conv: Convert, store: Store, tree: seq<Link>, live: seq<bool>, nodes: seq<Node>, n: nat, mem: seq<Value>)
    requires GoodTree(tree, live) && |nodes| == |tree| && 0 < n < |tree| && live[n] && GoodTree(tree, live[n := false])
    requires forall i :: 0 < i < |tree| && live[i] ==> tree[i].parent != n
    requires Spared(conv, store, tree, live[n := false], nodes, n)
    ensures if store.Elements? then Logical(conv, store.dtype, tree, live[n := false], nodes, mem) == Logical(conv, store.dtype, tree, live, nodes, mem)
            else ConstantCells(tree, live[n := false], nodes) == ConstantCells(tree, live, nodes)
  {
    forall k: nat
      ensures Covers(tree, n, k) ==> Deepest(tree, live[n := false], Requests(nodes), k) == Deepest(tree, live[n := false], Requests(nodes), Start(tree, n))
      ensures Covers(tree, n, k) && nodes[n].Request().Request? ==> Deepest(tree, live, Requests(nodes), k) == nodes[n].Request()
      ensures !Covers(tree, n, k) || nodes[n].Request().Nothing? ==>
                Deepest(tree, live[n := false], Requests(nodes), k) == Deepest(tree, live, Requests(nodes), k)
    {
      WithoutLeaf(tree, live, Requests(nodes), n, k);
    }
    hide Deepest, GoodTree, Start;
  }

  /** Fewer living nodes have fewer obligations. */
  lemma FewerLive(conv: Convert, tree: seq<Link>, live: seq<bool>, nodes: seq<Node>, n: nat, head: Head,
                  vector: seq<Value>, mem: array<Value>, repr: set<array<Value>>)
    requires WellRooted(tree) && |live| == |nodes| == |tree| && n < |tree| && head.Head? && |vector| == tree[0].size
    requires HeadsSet(tree, live, nodes, head.key, head.dtype, mem)
    requires SparesHold(conv, head.dtype, tree, live, nodes, vector, mem, repr) && AllAtHead(live, nodes)
    ensures HeadsSet(tree, live[n := false], nodes, head.key, head.dtype, mem)
    ensures SparesHold(conv, head.dtype, tree, live[n := false], nodes, vector, mem, repr)
    ensures AllAtHead(live[n := false], nodes)
  {
    var live' := live[n := false];
    forall j, key | Spare(live', nodes, j, key) ensures Spare(live, nodes, j, key) {
    }
    assert AllAtHead(live', nodes) && SparesHold(conv, head.dtype, tree, live', nodes, vector, mem, repr);
  }

  lemma KinWithout(tree: seq<Link>, live: seq<bool>, children: seq<seq<nat>>, n: nat, kept: seq<nat>)
    requires Kin(tree, live, children) && 0 < n < |tree| && live[n] && children[n] == []
    requires Distinct(kept) && forall c :: c in kept <==> c in children[tree[n].parent] && c != n
    ensures Kin(tree, live[n := false], children[tree[n].parent := kept])
  {
    forall i | 0 < i < |tree| && live[i] ensures tree[i].parent != n {
      assert i in children[tree[i].parent];
    }
    DestroyKeepsTree(tree, live, n);
    assert n in children[tree[n].parent];
  }

  /** Zeroing `n` leaves zero what is below it, and what was zero. */
  lemma ZeroSpreads(conv: Convert, e: Eager, n: nat, j: nat)
    requires ValidEager(e) && LiveNode(e, n) && j < |e.tree|
    requires Below(e.tree, j, n) || AllZero(e.tree, e.store, j)
    ensures AllZero(e.tree, SetConstant(conv, e, n, Zero), j)
  {
    if Below(e.tree, j, n) {
      BelowInside(e.tree, j, n);
    }
  }

  /** A new node without a request changes no cell, no interval and no key of the others. */
  lemma NodeAdded(conv: Convert, d: DType, tree: seq<Link>, live: seq<bool>, nodes: seq<Node>, link: Link, x: Node, mem: seq<Value>)
    requires GoodTree(tree, live) && GoodTree(tree + [link], live + [true]) && |nodes| == |tree| && x.Request() == Nothing
    ensures Logical(conv, d, tree + [link], live + [true], nodes + [x], mem) == Logical(conv, d, tree, live, nodes, mem)
    ensures ConstantCells(tree + [link], live + [true], nodes + [x]) == ConstantCells(tree, live, nodes)
  {
    hide Below, Start, SiblingsApart;
    var tree', live', nodes' := tree + [link], live + [true], nodes + [x];
    forall k: nat ensures Deepest(tree', live', Requests(nodes'), k) == Deepest(tree, live, Requests(nodes), k) {
      var over, over' := Over(tree, live, Requests(nodes), k), Over(tree', live', Requests(nodes'), k);
      forall j: nat | j < |tree| ensures over'[j] == over[j] {
        StartPrefix(tree, [link], j);
      }
      assert over'[..|tree|] == over;
    }
  }

  lemma {:induction false} HeadKeyPrefix(tree: seq<Link>, link: Link, rootKey: Key, j: nat)
    requires WellRooted(tree) && WellRooted(tree + [link]) && j < |tree|
    ensures HeadKey(tree + [link], rootKey, j) == HeadKey(tree, rootKey, j)
  {
    if j > 0 {
      HeadKeyPrefix(tree, link, rootKey, tree[j].parent);
    }
  }

  /** Heads and spare copies of the others stay as they are when a node is added. */
  lemma HeadsAdded(conv: Convert, head: Head, tree: seq<Link>, live: seq<bool>, nodes: seq<Node>, link: Link, x: Node,
                   vector: seq<Value>, mem: array<Value>, repr: set<array<Value>>)
    requires WellRooted(tree) && WellRooted(tree + [link]) && |live| == |nodes| == |tree| && head.Head? && |vector| == tree[0].size
    requires HeadsSet(tree, live, nodes, head.key, head.dtype, mem)
    requires HeadSet(tree + [link], head.key, head.dtype, mem, |tree|, x) && x.arrays.Keys == {x.head.key}
    requires SparesHold(conv, head.dtype, tree, live, nodes, vector, mem, repr) && AllAtHead(live, nodes)
    ensures HeadsSet(tree + [link], live + [true], nodes + [x], head.key, head.dtype, mem)
    ensures SparesHold(conv, head.dtype, tree + [link], live + [true], nodes + [x], vector, mem, repr)
    ensures AllAtHead(live + [true], nodes + [x])
  {
    var tree', live', nodes' := tree + [link], live + [true], nodes + [x];
    forall j | 0 <= j < |tree'| && live'[j] ensures HeadSet(tree', head.key, head.dtype, mem, j, nodes'[j]) {
      if j < |tree| {
        assert HeadSet(tree, head.key, head.dtype, mem, j, nodes[j]);
        StartPrefix(tree, [link], j);
        HeadKeyPrefix(tree, link, head.key, j);
      }
    }
    forall j, key | Spare(live', nodes', j, key)
      ensures j < |tree| && Spare(live, nodes, j, key) && Interval(tree', vector, j) == Interval(tree, vector, j)
    {
      if j < |tree| {
        StartPrefix(tree, [link], j);
      }
    }
  }

  /** Keeping only head arrays keeps every head, and no spare copy. */
  lemma TrimmedHeads(tree: seq<Link>, live: seq<bool>, nodes: seq<Node>, nodes': seq<Node>, key: Key, d: DType, mem: array<Value>)
    requires WellRooted(tree) && |live| == |nodes| == |nodes'| == |tree|
    requires HeadsSet(tree, live, nodes, key, d, mem)
    requires forall j :: 0 <= j < |tree| ==> nodes'[j] == if live[j] then nodes[j].Trimmed(true) else nodes[j]
    ensures HeadsSet(tree, live, nodes', key, d, mem) && Slim(live, nodes') && Requests(nodes') == Requests(nodes)
    ensures forall j :: 0 <= j < |tree| && live[j] ==> nodes'[j].arrays != map[]
  {
    forall j | 0 <= j < |tree| && live[j]
      ensures HeadSet(tree, key, d, mem, j, nodes'[j]) && nodes'[j].arrays.Keys == {nodes'[j].head.key}
    {
      assert HeadSet(tree, key, d, mem, j, nodes[j]);
    }
    forall j | 0 <= j < |tree| && live[j] ensures nodes'[j].arrays != map[] {
      assert nodes'[j].head.key in nodes'[j].arrays;
    }
  }

  /** Keeping only the head array of one node. */
  lemma KeptHead(tree: seq<Link>, live: seq<bool>, nodes: seq<Node>, nodes': seq<Node>, key: Key, d: DType, mem: array<Value>, n: nat)
    requires WellRooted(tree) && |live| == |nodes| == |tree| && n < |tree| && live[n]
    requires HeadsSet(tree, live, nodes, key, d, mem)
    requires forall j, k :: j != n ==> !Spare(live, nodes, j, k)
    requires nodes[n].HeadReady()
    requires var k := nodes[n].head.key;
             nodes' == nodes[n := nodes[n].Emptied().(arrays := map[k := nodes[n].arrays[k].(atHead := true)])]
    ensures HeadsSet(tree, live, nodes', key, d, mem) && Slim(live, nodes')
    ensures nodes'[n].head.key in nodes'[n].arrays
  {
    forall j | 0 <= j < |tree| && live[j] ensures HeadSet(tree, key, d, mem, j, nodes'[j]) {
      assert HeadSet(tree, key, d, mem, j, nodes[j]);
    }
    assert forall j, k :: j != n ==> Spare(live, nodes', j, k) == Spare(live, nodes, j, k);
  }

  class Family {
    const conv: Convert
    var tree: seq<Link>
    var live: seq<bool>
    var children: seq<seq<nat>>
    var nodes: seq<Node>
    ghost var Repr: set<array<Value>>
    ghost var pending: map<nat, Constant>

    ghost predicate Structure()
      reads `tree, `live, `children, `nodes, `Repr
    {
      Kin(tree, live, children) && |nodes| == |tree| && Shallow(tree)
    }

    /** Living `j` is `n`, a descendant of it or an ancestor of it. */
    ghost predicate InLineage(j: int, n: nat)
      reads `tree, `live, `children, `nodes, `Repr
      requires WellRooted(tree) && |live| == |tree| && n < |tree|
    {
      0 <= j < |tree| && live[j] && (Below(tree, j, n) || Below(tree, n, j))
    }

    predicate HasFamily(n: nat)
      reads `tree, `live, `children, `nodes, `Repr
      requires n < |tree| && n < |children|
    {
      tree[n].parent >= 0 || |children[n]| > 0
    }

    /** A new array: pending zero, and no memory yet. */
    constructor (conv: Convert, size: nat)
      requires Faithful(conv)
      ensures Valid() && fresh(Repr)
      ensures this.conv == conv && View() == EagerVector.Fresh(size)
      ensures View().tree == [Link(-1, 0, size)] && View().live == [true]
      ensures View().store.Constants? && |View().store.cells| == size && forall k :: 0 <= k < size ==> View().store.cells[k] == Zero
    {
      this.conv := conv;
      tree, live, children := [Link(-1, 0, size)], [true], [[]];
      nodes := [Node(NoHead, true, false, 0.0, false, map[])];
      Repr, pending := {}, map[0 := Zero];
      new;
      forall k | 0 <= k < size ensures ConstantCells(tree, live, nodes)[k] == Zero {
        assert Over(tree, live, Requests(nodes), k)[0] == Request(Zero);
      }
    }

    method ClearFlags(n: nat)
      requires n < |nodes|
      modifies this`nodes
      ensures nodes == old(nodes)[n := old(nodes)[n].Quiet()]
    {
      nodes := nodes[n := nodes[n].Quiet()];
    }

    method ClearFlagsDescendants(n: nat)
      requires Structure() && n < |tree| && live[n]
      modifies this`nodes
      ensures Structure()
      ensures forall j :: 0 <= j < |tree| ==>
                nodes[j] == if Under(tree, live, j, n) then old(nodes)[j].Quiet() else old(nodes)[j]
      decreases |tree| - n
    {
      for t := 0 to |children[n]|
        invariant Structure()
        invariant forall j :: 0 <= j < |tree| ==>
                    nodes[j] == if UnderSome(tree, live, j, children[n][..t]) then old(nodes)[j].Quiet() else old(nodes)[j]
      {
        UnderStep(tree, live, children, n, t);
        var c := children[n][t];
        ClearFlags(c);
        ClearFlagsDescendants(c);
      }
      UnderEnd(tree, live, children, n);
    }

    method PropagateZeroingFlagDescendants(n: nat, flag: bool)
      requires Structure() && n < |tree| && live[n]
      modifies this`nodes
      ensures Structure()
      ensures forall j :: 0 <= j < |tree| ==>
                nodes[j] == if Under(tree, live, j, n) then old(nodes)[j].Marked(flag) else old(nodes)[j]
      decreases |tree| - n
    {
      for t := 0 to |children[n]|
        invariant Structure()
        invariant forall j :: 0 <= j < |tree| ==>
                    nodes[j] == if UnderSome(tree, live, j, children[n][..t]) then old(nodes)[j].Marked(flag) else old(nodes)[j]
      {
        UnderStep(tree, live, children, n, t);
        var c := children[n][t];
        nodes := nodes[c := nodes[c].Marked(flag)];
        PropagateZeroingFlagDescendants(c, flag);
      }
      UnderEnd(tree, live, children, n);
    }

    method PropagateZeroingFlag(n: nat, flag: bool)
      requires Structure() && n < |tree| && live[n]
      modifies this`nodes
      ensures Structure()
      ensures forall j :: 0 <= j < |tree| ==>
                nodes[j] == if live[j] && (Below(tree, j, n) || Below(tree, n, j)) then old(nodes)[j].Marked(flag) else old(nodes)[j]
    {
      PropagateZeroingFlagDescendants(n, flag);
      nodes := nodes[n := nodes[n].Marked(flag)];
      var p := tree[n].parent;
      while p >= 0
        invariant -1 <= p < |tree| && (p >= 0 ==> live[p] && Below(tree, n, p) && p < n)
        invariant Structure()
        invariant forall j :: 0 <= j < |tree| ==>
                    nodes[j] == if live[j] && (Below(tree, j, n) || (Below(tree, n, j) && j > p)) then old(nodes)[j].Marked(flag) else old(nodes)[j]
      {
        nodes := nodes[p := nodes[p].Marked(flag)];
        Upward(tree, live, n, p);
        p := tree[p].parent;
      }
    }

    method CheckZeroingFillingDescendants(n: nat) returns (found: bool)
      requires Structure() && n < |tree| && live[n]
      ensures found <==> exists j :: 0 <= j < |tree| && Under(tree, live, j, n) && nodes[j].Lazy()
      decreases |tree| - n
    {
      for t := 0 to |children[n]|
        invariant forall j :: 0 <= j < |tree| && UnderSome(tree, live, j, children[n][..t]) ==> !nodes[j].Lazy()
      {
        UnderStep(tree, live, children, n, t);
        var c := children[n][t];
        assert UnderSome(tree, live, c, children[n][..t + 1]);
        if nodes[c].Lazy() {
          UnderAll(tree, live, children, n, c);
          assert c in children[n];
          return true;
        }
        var below := CheckZeroingFillingDescendants(c);
        if below {
          ghost var j :| 0 <= j < |tree| && Under(tree, live, j, c) && nodes[j].Lazy();
          UnderAll(tree, live, children, n, j);
          assert c in children[n];
          return true;
        }
      }
      UnderEnd(tree, live, children, n);
      return false;
    }

    method CheckZeroingFillingAncestors(n: nat) returns (found: bool)
      requires Structure() && n < |tree| && live[n]
      ensures found <==> exists j :: 0 <= j < n && Below(tree, n, j) && nodes[j].Lazy()
    {
      var p := tree[n].parent;
      Upward(tree, live, n, n);
      while p >= 0
        invariant -1 <= p < n && (p >= 0 ==> live[p] && Below(tree, n, p))
        invariant forall j :: p < j < n && Below(tree, n, j) ==> !nodes[j].Lazy()
      {
        if nodes[p].Lazy() {
          return true;
        }
        Upward(tree, live, n, p);
        p := tree[p].parent;
      }
      return false;
    }

    method CheckZeroingFilling(n: nat) returns (found: bool)
      requires Structure() && n < |tree| && live[n]
      ensures found <==> exists j :: InLineage(j, n) && nodes[j].Lazy()
    {
      if nodes[n].Lazy() {
        assert InLineage(n, n);
        return true;
      }
      found := CheckZeroingFillingDescendants(n);
      if found {
        ghost var j :| 0 <= j < |tree| && Under(tree, live, j, n) && nodes[j].Lazy();
        assert InLineage(j, n);
        return true;
      }
      found := CheckZeroingFillingAncestors(n);
      if found {
        ghost var j :| 0 <= j < n && Below(tree, n, j) && nodes[j].Lazy();
        AncestorsLive(tree, live, n, j);
        assert InLineage(j, n);
        return true;
      }
      forall j | InLineage(j, n) ensures !nodes[j].Lazy() {
        if j != n {
          if Below(tree, j, n) {
            assert Under(tree, live, j, n);
          } else {
            BelowSmaller(tree, n, j);
          }
        }
      }
    }

    /** The part of `traverse_zero_fill` that concerns one node. */
    method ExecuteRequest(n: nat, ghost rootKey: Key, ghost d: DType, ghost mem: array<Value>)
      requires Structure() && n < |tree| && live[n] && mem.Length == tree[0].size
      requires HeadSet(tree, rootKey, d, mem, n, nodes[n])
      requires forall j :: 0 <= j < n && Below(tree, n, j) ==> !nodes[j].Lazy()
      modifies this`nodes, mem
      ensures nodes == old(nodes)[n := old(nodes)[n].Quiet()]
      ensures Logical(conv, d, tree, live, nodes, mem[..]) == old(Logical(conv, d, tree, live, nodes, mem[..]))
    {
      ghost var before, was := nodes, mem[..];
      var head := nodes[n].arrays[nodes[n].head.key];
      EveryoneBelowRoot(tree, n);
      BelowInside(tree, n, 0);
      if nodes[n].zeroLazy {
        FillRange(head.block, head.offset, tree[n].size, 0.0);
      } else if nodes[n].fillLazy {
        FillRange(head.block, head.offset, tree[n].size, conv(FLOAT, nodes[n].head.dtype, nodes[n].fillValue));
      }
      ClearFlags(n);
      ExecutedInPlace(conv, d, tree, live, before, n, was, mem[..]);
    }

    method TraverseZeroFill(n: nat, ghost rootKey: Key, ghost d: DType, ghost mem: array<Value>)
      requires Structure() && n < |tree| && live[n] && mem.Length == tree[0].size
      requires HeadsSet(tree, live, nodes, rootKey, d, mem)
      requires forall j :: 0 <= j < n && Below(tree, n, j) ==> !nodes[j].Lazy()
      modifies this`nodes, mem
      ensures Structure()
      ensures forall j :: 0 <= j < |tree| ==>
                nodes[j] == if live[j] && Below(tree, j, n) then old(nodes)[j].Quiet() else old(nodes)[j]
      ensures Logical(conv, d, tree, live, nodes, mem[..]) == old(Logical(conv, d, tree, live, nodes, mem[..]))
      decreases |tree| - n
    {
      hide Start, Logical, Settle, SparesHold, AllAtHead, HeadKey, WellRooted;
      assert HeadSet(tree, rootKey, d, mem, n, nodes[n]);
      if nodes[n].HasHeadArray() {
        ExecuteRequest(n, rootKey, d, mem);
      }
      for t := 0 to |children[n]|
        invariant Structure()
        invariant forall j :: 0 <= j < |tree| ==>
                    nodes[j] == if j == n || UnderSome(tree, live, j, children[n][..t]) then old(nodes)[j].Quiet() else old(nodes)[j]
        invariant Logical(conv, d, tree, live, nodes, mem[..]) == old(Logical(conv, d, tree, live, nodes, mem[..]))
      {
        UnderStep(tree, live, children, n, t);
        var c := children[n][t];
        Upward(tree, live, c, c);
        assert HeadsSet(tree, live, nodes, rootKey, d, mem) by {
          assert forall j :: 0 <= j < |tree| && live[j] ==> HeadSet(tree, rootKey, d, mem, j, old(nodes)[j]);
        }
        forall j | 0 <= j < c && Below(tree, c, j) ensures !nodes[j].Lazy() {
          if j != n {
            assert Below(tree, n, j);
            BelowSmaller(tree, n, j);
          }
        }
        TraverseZeroFill(c, rootKey, d, mem);
      }
      UnderEnd(tree, live, children, n);
    }

    method ClearAllArray(n: nat)
      requires n < |nodes|
      modifies this`nodes
      ensures nodes == old(nodes)[n := old(nodes)[n].Emptied()]
    {
      nodes := nodes[n := nodes[n].(arrays := map[])];
      ClearFlags(n);
    }

    /** Drop every copy of the descendants, or every copy but the head. */
    method ClearAllArrayDescendants(n: nat, keepHead: bool)
      requires Structure() && n < |tree| && live[n]
      requires (forall j :: 0 <= j < |tree| && Under(tree, live, j, n) ==> nodes[j].HeadReady())
            || (forall j :: 0 <= j < |tree| && Under(tree, live, j, n) ==> nodes[j].arrays == map[])
      modifies this`nodes
      ensures Structure()
      ensures forall j :: 0 <= j < |tree| ==>
                nodes[j] == if Under(tree, live, j, n) then old(nodes)[j].Trimmed(keepHead) else old(nodes)[j]
      decreases |tree| - n
    {
      for t := 0 to |children[n]|
        invariant Structure()
        invariant forall j :: 0 <= j < |tree| ==>
                    nodes[j] == if UnderSome(tree, live, j, children[n][..t]) then old(nodes)[j].Trimmed(keepHead) else old(nodes)[j]
      {
        UnderStep(tree, live, children, n, t);
        ghost var before := nodes;
        var c := children[n][t];
        assert Under(tree, live, c, n) by {
          assert Below(tree, n, n);
        }
        if !nodes[c].HasHeadArray() {
          assert forall j :: 0 <= j < |tree| && Under(tree, live, j, n) ==> old(nodes)[j].Trimmed(keepHead) == old(nodes)[j];
          UnderBoth(tree, live, children, n, t);
          return;
        }
        if keepHead {
          nodes := nodes[c := nodes[c].OnlyHead()];
        } else {
          ClearAllArray(c);
        }
        forall j | 0 <= j < |tree| && Under(tree, live, j, c) ensures Under(tree, live, j, n) {
          UnderBoth(tree, live, children, n, t);
        }
        ClearAllArrayDescendants(c, keepHead);
      }
      UnderEnd(tree, live, children, n);
    }

    method CreateArrayFromParent(n: nat, ghost rootKey: Key, ghost d: DType, ghost mem: array<Value>)
      requires Structure() && 0 < n < |tree|
      requires HeadSet(tree, rootKey, d, mem, tree[n].parent, nodes[tree[n].parent])
      modifies this`nodes
      ensures nodes == old(nodes)[n := Linked(tree, rootKey, d, mem, n, old(nodes)[n])]
    {
      var p := tree[n].parent;
      var parentArray := nodes[p].arrays[nodes[p].head.key];
      var key := Sub(nodes[p].head.key, tree[n].offset, tree[n].size);
      var entry := Entry(parentArray.block, tree[p].offset + tree[n].offset, false);
      nodes := nodes[n := nodes[n].(head := Head(key, nodes[p].head.dtype), arrays := nodes[n].arrays[key := entry])];
    }

    method CreateArrayDescendants(n: nat, ghost rootKey: Key, ghost d: DType, ghost mem: array<Value>)
      requires Structure() && n < |tree| && live[n]
      requires HeadSet(tree, rootKey, d, mem, n, nodes[n])
      requires (forall j :: 0 <= j < |tree| && Under(tree, live, j, n) ==> nodes[j].arrays == map[])
            || (forall j :: 0 <= j < |tree| && Under(tree, live, j, n) ==> nodes[j].HasHeadArray())
      modifies this`nodes
      ensures Structure()
      ensures forall j :: 0 <= j < |tree| ==>
                nodes[j] == if Under(tree, live, j, n) then LinkedIfBare(tree, rootKey, d, mem, j, old(nodes)[j]) else old(nodes)[j]
      ensures (forall j :: 0 <= j < |tree| && Under(tree, live, j, n) ==> old(nodes)[j].HasHeadArray()) ==> nodes == old(nodes)
      decreases |tree| - n
    {
      for t := 0 to |children[n]|
        invariant Structure()
        invariant forall j :: 0 <= j < |tree| ==>
                    nodes[j] == if UnderSome(tree, live, j, children[n][..t])
                                then LinkedIfBare(tree, rootKey, d, mem, j, old(nodes)[j]) else old(nodes)[j]
      {
        UnderStep(tree, live, children, n, t);
        UnderBoth(tree, live, children, n, t);
        var c := children[n][t];
        assert Below(tree, c, c);
        if !nodes[c].HasHeadArray() {
          CreateArrayFromParent(c, rootKey, d, mem);
          forall j | 0 <= j < |tree| && Under(tree, live, j, c) ensures nodes[j].arrays == map[] {
            assert Under(tree, live, j, n);
          }
          CreateArrayDescendants(c, rootKey, d, mem);
        } else {
          assert forall j :: 0 <= j < |tree| && Under(tree, live, j, n) ==> old(nodes)[j].HasHeadArray();
        }
      }
      UnderEnd(tree, live, children, n);
    }

    ghost predicate AllBare()
      reads `tree, `live, `children, `nodes, `Repr
    {
      |live| == |nodes| && forall j :: 0 <= j < |nodes| && live[j] ==> nodes[j].arrays == map[]
    }

    /** Every living node has its head array, on one block of the root's size. */
    ghost predicate SetUp()
      reads `tree, `live, `children, `nodes, `Repr
      requires Structure()
    {
      && nodes[0].HeadReady()
      && var head := nodes[0].head;
      && head.key.Plain? && head.key.dtype == head.dtype
      && Mem().Length == tree[0].size
      && Mem() in Repr
      && HeadsSet(tree, live, nodes, head.key, head.dtype, Mem())
    }

    ghost function Mem(): array<Value>
      reads `tree, `live, `children, `nodes, `Repr
      requires |nodes| > 0 && nodes[0].HeadReady()
    {
      nodes[0].arrays[nodes[0].head.key].block
    }

    ghost function Vector(): seq<Value>
      reads `tree, `live, `children, `nodes, `Repr, Repr
      requires Structure() && SetUp()
    {
      Logical(conv, nodes[0].head.dtype, tree, live, nodes, Mem()[..])
    }

    ghost function Store(): Store
      reads `tree, `live, `children, `nodes, `Repr, Repr
      requires Structure() && (nodes[0].arrays != map[] ==> SetUp())
    {
      if nodes[0].arrays == map[] then Constants(ConstantCells(tree, live, nodes))
      else Elements(nodes[0].head.key.place, nodes[0].head.dtype, Vector())
    }

    ghost predicate SparesAgree()
      reads `tree, `live, `children, `nodes, `Repr, Repr
      requires Structure() && SetUp()
    {
      SparesHold(conv, nodes[0].head.dtype, tree, live, nodes, Vector(), Mem(), Repr)
    }

    method NewArray(n: nat, key: Key, d: DType)
      requires n < |nodes| && |nodes| == |tree| && key !in nodes[n].arrays
      modifies this`nodes, this`Repr
      ensures |nodes| == |old(nodes)| && nodes[n].arrays.Keys == old(nodes)[n].arrays.Keys + {key}
      ensures nodes[n].arrays == old(nodes)[n].arrays[key := nodes[n].arrays[key]]
      ensures nodes == old(nodes)[n := old(nodes)[n].(
                head := if old(nodes)[n].arrays == map[] then Head(key, d) else old(nodes)[n].head,
                arrays := nodes[n].arrays)]
      ensures var e := nodes[n].arrays[key];
              fresh(e.block) && Repr == old(Repr) + {e.block} && e.block.Length == tree[n].size && e.offset == 0 && !e.atHead
    {
      if nodes[n].arrays == map[] {
        nodes := nodes[n := nodes[n].(head := Head(key, d))];
      }
      var block := new Value[tree[n].size];
      nodes := nodes[n := nodes[n].(arrays := nodes[n].arrays[key := Entry(block, 0, false)])];
      Repr := Repr + {block};
    }

    /** The root's first array: it becomes the head, and every view gets its stretch of it. */
    method CreateFirst(key: Key, d: DType)
      requires Structure() && AllBare() && key.Plain? && key.dtype == d
      modifies this`nodes, this`Repr
      ensures Structure() && SetUp() && nodes[0].head == Head(key, d)
      ensures !nodes[0].arrays[key].atHead && nodes[0].arrays.Keys == {key}
      ensures fresh(Repr - old(Repr)) && old(Repr) <= Repr
      ensures Requests(nodes) == old(Requests(nodes))
      ensures forall j :: 0 <= j < |tree| ==> nodes[j].Flags() == old(nodes)[j].Flags()
      ensures forall j, key' :: !Spare(live, nodes, j, key')
    {
      hide Below, Logical, SparesHold, Interval, Deepest, SiblingsApart, Requests, Shallow;
      NewArray(0, key, d);
      EveryoneUnderRoot();
      if HasFamily(0) {
        CreateArrayDescendants(0, key, d, Mem());
      }
      assert Requests(nodes) == old(Requests(nodes));
    }

    /** With every head in place, `create_array_descendants` finds nothing to create. */
    method RecheckDescendants()
      requires Structure() && nodes[0].arrays != map[] && SetUp()
      modifies this`nodes
      ensures nodes == old(nodes)
    {
      var head := nodes[0].head;
      assert forall j :: 0 <= j < |tree| && live[j] ==> HeadSet(tree, head.key, head.dtype, Mem(), j, nodes[j]);
      CreateArrayDescendants(0, head.key, head.dtype, Mem());
    }

    /** One more copy of node `n`, not yet filled. */
    method CreateNext(n: nat, key: Key, d: DType)
      requires Structure() && n < |tree| && live[n] && key !in nodes[n].arrays && key.Plain?
      requires nodes[0].arrays != map[] && SetUp() && SparesAgree() && AllAtHead(live, nodes)
      modifies this`nodes, this`Repr
      ensures Structure() && SetUp() && SparesAgree() && SparesAtHead(live, nodes, n, key)
      ensures fresh(Repr - old(Repr)) && old(Repr) <= Repr
      ensures Mem() == old(Mem()) && Vector() == old(Vector())
      ensures Requests(nodes) == old(Requests(nodes))
      ensures forall j :: 0 <= j < |tree| ==> nodes[j].Flags() == old(nodes)[j].Flags() && nodes[j].head == old(nodes)[j].head
      ensures Spare(live, nodes, n, key) && Unshared(live, nodes, n, key)
    {
      hide Below, Start, Logical, Settle, SparesHold, AllAtHead, HeadKey, Interval, WellRooted;
      ghost var before, vector, repr := nodes, Vector(), Repr;
      NewArray(n, key, d);
      assert SetUp() by {
        assert forall j :: 0 <= j < |tree| && live[j] ==> HeadSet(tree, nodes[0].head.key, nodes[0].head.dtype, Mem(), j, before[j]);
      }
      if tree[n].parent == -1 && HasFamily(n) {
        RecheckDescendants();
      }
      assert Requests(nodes) == Requests(before);
      assert Vector() == vector;
      SpareAdded(conv, nodes[0].head.dtype, tree, live, before, nodes, vector, Mem(), repr, Repr, n, key);
    }

    lemma EveryoneUnderRoot()
      requires Structure()
      ensures forall j :: 0 < j < |tree| && live[j] ==> Under(tree, live, j, 0)
      ensures !HasFamily(0) ==> forall j :: 0 < j < |tree| ==> !live[j]
    {
      forall j: nat | 0 < j < |tree| && live[j] ensures Under(tree, live, j, 0) && |children[0]| > 0 {
        EveryoneBelowRoot(tree, j);
        var c := ToChild(tree, live, j, 0);
        assert c in children[0];
      }
    }

    /** The topmost node with a request among `n` and its ancestors, or `n`. */
    method ZeroFillRoot(n: nat) returns (z: nat)
      requires Structure() && n < |tree| && live[n]
      ensures z <= n && live[z] && Below(tree, n, z) && (z == n || nodes[z].Lazy())
      ensures forall j :: 0 <= j < z && Below(tree, z, j) ==> !nodes[j].Lazy()
    {
      z := n;
      var p := tree[n].parent;
      Upward(tree, live, n, n);
      while p >= 0
        invariant -1 <= p < n && (p >= 0 ==> live[p] && Below(tree, n, p))
        invariant z <= n && live[z] && Below(tree, n, z) && p < z && (z == n || nodes[z].Lazy())
        invariant forall j :: p < j < z && Below(tree, n, j) ==> !nodes[j].Lazy()
      {
        if nodes[p].Lazy() {
          z := p;
        }
        Upward(tree, live, n, p);
        p := tree[p].parent;
      }
      forall j | 0 <= j < z && Below(tree, z, j) ensures !nodes[j].Lazy() {
        BelowTransitive(tree, n, z, j);
      }
    }

    /** `traverse_zero_fill` below `z` leaves the logical vector and the spare copies as they are. */
    method ExecuteBelow(z: nat)
      requires Structure() && z < |tree| && live[z] && nodes[0].arrays != map[] && SetUp() && SparesAgree()
      requires forall j :: 0 <= j < z && Below(tree, z, j) ==> !nodes[j].Lazy()
      modifies this`nodes, Mem()
      ensures Structure() && nodes[0].arrays != map[] && SetUp() && Mem() == old(Mem()) && Vector() == old(Vector())
      ensures SparesAgree() && SameSpares(live, nodes, old(nodes))
      ensures forall j :: 0 <= j < |tree| ==>
                nodes[j] == if live[j] && Below(tree, j, z) then old(nodes)[j].Quiet() else old(nodes)[j]
    {
      ghost var before, vector := nodes, Vector();
      TraverseZeroFill(z, nodes[0].head.key, nodes[0].head.dtype, Mem());
      assert SetUp() by {
        var head := before[0].head;
        assert forall j :: 0 <= j < |tree| && live[j] ==> HeadSet(tree, head.key, head.dtype, Mem(), j, before[j]);
      }
      SparesKept(before, vector);
    }

    /** The middle part of `sync`: execute the requests that concern node `n`. */
    method Evaluate(n: nat)
      requires Structure() && n < |tree| && live[n] && nodes[0].arrays != map[] && SetUp() && SparesAgree()
      modifies this`nodes, Mem()
      ensures Structure() && nodes[0].arrays != map[] && SetUp() && Mem() == old(Mem()) && Vector() == old(Vector())
      ensures SparesAgree() && SameSpares(live, nodes, old(nodes))
      ensures forall j :: 0 <= j < |tree| ==> nodes[j] == old(nodes)[j] || nodes[j] == old(nodes)[j].Quiet()
      ensures if HasFamily(n) then forall j :: InLineage(j, n) ==> !nodes[j].Lazy() else nodes == old(nodes)
      ensures HasFamily(n) ==> Flushed(tree, live, old(nodes), nodes, n)
    {
      hide Below, Start, Logical, SparesHold, HeadsSet, GoodTree, WellRooted, Shallow;
      if HasFamily(n) {
        ghost var before := nodes;
        var lazy := CheckZeroingFilling(n);
        if lazy {
          var z := ZeroFillRoot(n);
          ExecuteBelow(z);
          QuietLineage(n, z);
          BelowFlushed(before, n, z);
        }
      }
    }

    lemma BelowFlushed(before: seq<Node>, n: nat, z: nat)
      requires Structure() && |before| == |tree| && n < |tree| && live[n]
      requires z <= n && live[z] && Below(tree, n, z) && (z == n || before[z].Lazy())
      requires forall i :: 0 <= i < z && Below(tree, z, i) ==> !before[i].Lazy()
      requires forall j :: 0 <= j < |tree| ==> nodes[j] == if live[j] && Below(tree, j, z) then before[j].Quiet() else before[j]
      ensures Flushed(tree, live, before, nodes, n)
    {
      forall j: nat | j < |tree| ensures Stirred(tree, live, before, n, j) <==> Below(tree, j, z) {
        StirredFrom(tree, live, before, n, z, j);
      }
    }

    lemma QuietLineage(n: nat, z: nat)
      requires Structure() && n < |tree| && live[n] && z <= n && Below(tree, n, z)
      requires forall j :: 0 <= j < z && Below(tree, z, j) ==> !nodes[j].Lazy()
      requires forall j :: 0 <= j < |tree| && live[j] && Below(tree, j, z) ==> !nodes[j].Lazy()
      ensures forall j :: InLineage(j, n) ==> !nodes[j].Lazy()
    {
      forall j | InLineage(j, n) ensures !nodes[j].Lazy() {
        if Below(tree, j, n) {
          BelowTransitive(tree, j, n, z);
        } else if j < z {
          AncestorsLinear(tree, n, j, z);
        } else {
          AncestorsLinear(tree, n, z, j);
        }
      }
    }

    lemma SparesKept(before: seq<Node>, vector: seq<Value>)
      requires Structure() && |before| == |tree| && nodes[0].arrays != map[] && SetUp() && Vector() == vector
      requires forall j :: 0 <= j < |tree| ==> nodes[j] == before[j] || nodes[j] == before[j].Quiet()
      requires SparesHold(conv, nodes[0].head.dtype, tree, live, before, vector, Mem(), Repr)
      ensures SparesAgree()
      ensures SameSpares(live, nodes, before)
    {
      forall j, key | Spare(live, nodes, j, key)
        ensures Spare(live, before, j, key) && nodes[j].arrays[key] == before[j].arrays[key]
      {
      }
    }

    /** The requests over node `n` have been executed, or its only array has just been created. */
    ghost predicate Settled(n: nat, key: Key)
      reads `tree, `live, `children, `nodes, `Repr
      requires Structure() && n < |tree|
    {
      if HasFamily(n) || !nodes[n].Lazy() then forall j :: InLineage(j, n) ==> !nodes[j].Lazy()
      else nodes[n].arrays.Keys == {key} && !nodes[n].arrays[key].atHead
    }

    /** The last part of `sync`: bring the array of `key` up to date. */
    method Refresh(n: nat, key: Key, d: DType)
      requires Faithful(conv) && OneRequest(nodes)
      requires Structure() && n < |tree| && live[n] && nodes[0].arrays != map[] && SetUp() && SparesAgree()
      requires key in nodes[n].arrays && SparesAtHead(live, nodes, n, key) && Settled(n, key)
      requires !nodes[n].arrays[key].atHead ==> Unshared(live, nodes, n, key)
      requires key == nodes[n].head.key ==> d == nodes[n].head.dtype
      requires key != nodes[n].head.key ==> key.Plain? && d == key.dtype
      modifies this`nodes, nodes[n].arrays[key].block
      ensures Structure() && nodes[0].arrays != map[] && SetUp() && Mem() == old(Mem()) && Vector() == old(Vector())
      ensures SparesAgree() && SparesAtHead(live, nodes, n, key)
      ensures forall j :: InLineage(j, n) ==> !nodes[j].Lazy()
      ensures nodes == old(nodes) || nodes == old(nodes)[n := old(nodes)[n].Quiet()]
      ensures key != nodes[n].head.key ==>
                nodes[n].arrays[key].block[..] == ConvertAll(conv, nodes[0].head.dtype, d, Interval(tree, Vector(), n))
    {
      assert HeadSet(tree, nodes[0].head.key, nodes[0].head.dtype, Mem(), n, nodes[n]);
      assert key != nodes[n].head.key ==> Spare(live, nodes, n, key);
      if nodes[n].arrays[key].atHead {
        return;
      }
      if !HasFamily(n) && nodes[n].Lazy() {
        RefreshLone(n, key, d);
      } else if |nodes[n].arrays| > 1 {
        RefreshFromHead(n, key, d);
      } else if key != nodes[n].head.key {
        TwoKeys(nodes[n].arrays, key, nodes[n].head.key);
        assert false;
      }
    }

    /** `sync` on an array without family executes its own request. */
    method RefreshLone(n: nat, key: Key, d: DType)
      requires OneRequest(nodes)
      requires Structure() && n < |tree| && live[n] && nodes[0].arrays != map[] && SetUp() && SparesAgree()
      requires !HasFamily(n) && nodes[n].Lazy() && nodes[n].arrays.Keys == {key} && d == nodes[n].head.dtype
      modifies this`nodes, nodes[n].arrays[key].block
      ensures Structure() && nodes[0].arrays != map[] && SetUp() && Mem() == old(Mem()) && Vector() == old(Vector())
      ensures forall j, key' :: !Spare(live, nodes, j, key')
      ensures nodes == old(nodes)[n := old(nodes)[n].Quiet()]
      ensures forall j :: InLineage(j, n) ==> !nodes[j].Lazy()
    {
      ghost var before, vector, was := nodes, Vector(), Mem()[..];
      assert n == 0 by { Upward(tree, live, n, n); }
      EveryoneUnderRoot();
      var array_ := nodes[n].arrays[key];
      if nodes[n].zeroLazy {
        FillRange(array_.block, array_.offset, tree[n].size, 0.0);
        nodes := nodes[n := nodes[n].(zeroLazy := false)];
      } else {
        FillRange(array_.block, array_.offset, tree[n].size, conv(FLOAT, d, nodes[n].fillValue));
        nodes := nodes[n := nodes[n].(fillLazy := false)];
      }
      assert nodes == before[n := before[n].Quiet()];
      ExecutedInPlace(conv, d, tree, live, before, n, was, Mem()[..]);
    }

    /** `sync` copies the head, with conversion, into an array that is not at head. */
    method RefreshFromHead(n: nat, key: Key, d: DType)
      requires Faithful(conv)
      requires Structure() && n < |tree| && live[n] && nodes[0].arrays != map[] && SetUp() && SparesAgree()
      requires key in nodes[n].arrays && forall j :: InLineage(j, n) ==> !nodes[j].Lazy()
      requires !nodes[n].arrays[key].atHead && Unshared(live, nodes, n, key)
      requires nodes[n].head.Head? && (if key == nodes[n].head.key then d == nodes[n].head.dtype else Spare(live, nodes, n, key) && key.Plain? && key.dtype == d)
      modifies nodes[n].arrays[key].block
      ensures SetUp() && Vector() == old(Vector()) && SparesAgree()
      ensures key != nodes[n].head.key ==>
                nodes[n].arrays[key].block[..] == ConvertAll(conv, nodes[0].head.dtype, d, Interval(tree, Vector(), n))
    {
      ghost var mem := Mem();
      assert HeadSet(tree, nodes[0].head.key, nodes[0].head.dtype, mem, n, nodes[n]);
      var head := nodes[n].arrays[nodes[n].head.key];
      EveryoneBelowRoot(tree, n);
      BelowInside(tree, n, 0);
      if key == nodes[n].head.key {
        ghost var was := mem[..];
        CopyOntoItself(conv, d, head.block, head.offset, tree[n].size);
        assert mem[..] == was;
        assert Vector() == old(Vector());
      } else {
        FillSpare(n, key);
      }
    }

    /** The copy into a block of its own. */
    method FillSpare(n: nat, key: Key)
      requires Structure() && n < |tree| && live[n] && nodes[0].arrays != map[] && SetUp() && SparesAgree()
      requires Spare(live, nodes, n, key) && key.Plain? && forall j :: InLineage(j, n) ==> !nodes[j].Lazy()
      requires !nodes[n].arrays[key].atHead && Unshared(live, nodes, n, key)
      modifies nodes[n].arrays[key].block
      ensures SetUp() && Vector() == old(Vector()) && SparesAgree()
      ensures nodes[n].arrays[key].block[..] == ConvertAll(conv, nodes[0].head.dtype, key.dtype, Interval(tree, Vector(), n))
    {
      hide Below, Logical, HeadKey, ConvertAll, Deepest, Rooted, SiblingsApart, Requests, Shallow;
      ghost var vector, mem, was, d := Vector(), Mem(), Mem()[..], nodes[0].head.dtype;
      assert HeadSet(tree, nodes[0].head.key, d, mem, n, nodes[n]);
      var array_, head := nodes[n].arrays[key], nodes[n].arrays[nodes[n].head.key];
      EveryoneBelowRoot(tree, n);
      BelowInside(tree, n, 0);
      QuietCells(conv, d, tree, live, nodes, n, was);
      assert Interval(tree, vector, n) == Interval(tree, was, n);
      CopyRange(conv, nodes[n].head.dtype, key.dtype, head.block, head.offset, array_.block, array_.offset, tree[n].size);
      assert mem[..] == was;
      assert Vector() == vector;
      assert array_.block[..] == ConvertAll(conv, d, key.dtype, Interval(tree, vector, n));
    }

    /** What holds between any two operations. */
    ghost predicate Valid()
      reads this, Repr
    {
      Core() && RequestsPending()
    }

    ghost predicate Core()
      reads `tree, `live, `children, `nodes, `Repr, Repr
    {
      && Faithful(conv)
      && Structure()
      && OneRequest(nodes)
      && (if nodes[0].arrays == map[] then AllBare() && nodes[0].Lazy()
          else SetUp() && !nodes[0].Lazy() && SparesAgree() && AllAtHead(live, nodes))
      && ZeroingSound()
    }

    /** `pending` are the nodes with a request. */
    ghost predicate RequestsPending()
      reads this
    {
      Listed(live, nodes, pending)
    }

    /** A node that reports `zeroing` holds only zeros. */
    ghost predicate ZeroingSound()
      reads `tree, `live, `children, `nodes, `Repr, Repr
      requires Structure() && (nodes[0].arrays != map[] ==> SetUp())
    {
      forall j :: 0 <= j < |tree| && live[j] && nodes[j].zeroing ==> AllZero(tree, Store(), j)
    }

    /** The flat vector that this family stands for. */
    ghost function View(): (e: Eager)
      reads this, Repr
      requires Valid()
      ensures ValidEager(e)
    {
      Eager(tree, live, Store(), pending)
    }

    /** The key of the array asked for: a view's is derived from its parent's if the root has that place and type. */
    method ChooseKey(n: nat, place: Place, d: DType) returns (key: Key)
      requires Structure() && n < |tree| && live[n] && Syncable(n)
      ensures key == if nodes[0].arrays != map[] && nodes[0].head == Head(Plain(place, d), d) then nodes[n].head.key else Plain(place, d)
      ensures nodes[0].arrays != map[] ==> nodes[n].HeadReady() && nodes[0].head.Head? && nodes[0].head.key.Plain?
      ensures nodes[0].arrays != map[] ==> (nodes[0].head == Head(Plain(place, d), d) <==> nodes[0].head.key == Plain(place, d))
      ensures nodes[0].arrays == map[] ==> n == 0
    {
      key := Plain(place, d);
      if tree[n].parent >= 0 && nodes[0].head.Head? && nodes[0].head.key == key {
        Upward(tree, live, n, n);
        assert HeadSet(tree, key, nodes[0].head.dtype, Mem(), tree[n].parent, nodes[tree[n].parent]);
        key := Sub(nodes[tree[n].parent].head.key, tree[n].offset, tree[n].size);
      }
      assert nodes[0].arrays != map[] ==> HeadSet(tree, nodes[0].head.key, nodes[0].head.dtype, Mem(), n, nodes[n]);
      Upward(tree, live, n, n);
    }

    /** `sync` chooses the key and, where there is none yet, creates the array. */
    method Acquire(n: nat, place: Place, d: DType) returns (key: Key)
      requires OneRequest(nodes) && Structure() && n < |tree| && live[n]
      requires Syncable(n)
      modifies this`nodes, this`Repr
      ensures OneRequest(nodes) && Structure() && fresh(Repr - old(Repr)) && old(Repr) <= Repr
      ensures nodes[0].arrays != map[] && SetUp() && SparesAgree() && SparesAtHead(live, nodes, n, key)
      ensures Store() == Settle(conv, old(Store()), place, d)
      ensures key in nodes[n].arrays
      ensures key == if nodes[0].head.key == Plain(place, d) then nodes[n].head.key else Plain(place, d)
      ensures !nodes[n].arrays[key].atHead ==> Unshared(live, nodes, n, key)
      ensures forall j :: 0 <= j < |tree| ==> nodes[j].Calmer(old(nodes)[j])
      ensures SameLazy(old(nodes), nodes)
      ensures if old(nodes[0].arrays) == map[]
              then nodes[0].arrays.Keys == {key} && !nodes[n].arrays[key].atHead && forall j, key' :: !Spare(live, nodes, j, key')
              else !nodes[0].Lazy()
    {
      hide Flushed, Below, Start, Logical, Settle, HeadKey, HeadsSet, HeadSet, Interval, WellRooted, Requests;
      ghost var before, store := nodes, Store();
      key := ChooseKey(n, place, d);
      if key !in nodes[n].arrays {
        if nodes[n].arrays == map[] {
          CreateFirst(key, d);
          FirstStore(before, store, place, d);
        } else {
          CreateNext(n, key, d);
        }
      } else if key == nodes[n].head.key {
        HeadUnshared(n);
      } else {
        assert Spare(live, nodes, n, key);
      }
      assert forall j :: 0 <= j < |tree| ==> nodes[j].Request() == Requests(nodes)[j] == Requests(before)[j];
    }

    /** The first array changes nothing: the requests still decide every cell. */
    lemma FirstStore(before: seq<Node>, store: Store, place: Place, d: DType)
      requires Structure() && |before| == |tree| && before[0].Lazy() && Requests(nodes) == Requests(before)
      requires store == Constants(ConstantCells(tree, live, before))
      requires nodes[0].arrays != map[] && SetUp() && nodes[0].head == Head(Plain(place, d), d)
      ensures Store() == Settle(conv, store, place, d)
    {
      forall k | 0 <= k < tree[0].size ensures Vector()[k] == Realize(conv, d, store.cells[k]) {
        assert Requests(nodes)[0].Request?;
        var j := DeepestDecides(tree, live, Requests(nodes), k, 0);
      }
      assert Vector() == Settle(conv, store, place, d).vals;
    }

    lemma HeadUnshared(n: nat)
      requires Structure() && n < |tree| && live[n] && nodes[0].arrays != map[] && SetUp() && SparesAgree()
      ensures nodes[n].HeadReady() && Unshared(live, nodes, n, nodes[n].head.key)
    {
      assert HeadSet(tree, nodes[0].head.key, nodes[0].head.dtype, Mem(), n, nodes[n]);
      forall j, key | Spare(live, nodes, j, key) ensures nodes[j].arrays[key].block != Mem() {
      }
    }

    /** `sync` up to the point where a write-only call returns. */
    method Locate(n: nat, place: Place, d: DType) returns (key: Key)
      requires OneRequest(nodes) && Structure() && n < |tree| && live[n] && Syncable(n)
      modifies this`nodes, this`Repr, Repr
      ensures OneRequest(nodes) && Structure() && fresh(Repr - old(Repr)) && old(Repr) <= Repr
      ensures nodes[0].arrays != map[] && SetUp() && SparesAgree() && SparesAtHead(live, nodes, n, key)
      ensures Store() == Settle(conv, old(Store()), place, d)
      ensures key in nodes[n].arrays && nodes[n].arrays[key].block in Repr && Settled(n, key)
      ensures key == if nodes[0].head.key == Plain(place, d) then nodes[n].head.key else Plain(place, d)
      ensures !nodes[n].arrays[key].atHead ==> Unshared(live, nodes, n, key)
      ensures forall j :: 0 <= j < |tree| ==> nodes[j].Calmer(old(nodes)[j])
      ensures if HasFamily(n) then Flushed(tree, live, old(nodes), nodes, n) else SameLazy(old(nodes), nodes)
      ensures old(nodes[0].arrays) == map[] ==> nodes[0].arrays.Keys == {key} && forall j, key' :: !Spare(live, nodes, j, key')
    {
      hide Flushed, Stirred, Below, Start, Logical, Settle, AllAtHead, HeadKey, WellRooted, SiblingsApart;
      key := Acquire(n, place, d);
      ghost var acquired := nodes;
      if !HasFamily(n) {
        LoneRoot(n);
      }
      EvaluateFor(n, key);
      if HasFamily(n) {
        FlushedBetween(tree, live, old(nodes), acquired, nodes, nodes, n);
      }
    }

    lemma LoneRoot(n: nat)
      requires Structure() && n < |tree| && live[n] && !HasFamily(n)
      ensures n == 0
    {
      Upward(tree, live, n, n);
    }

    /** Executing the requests leaves the array of `key` as it was. */
    method EvaluateFor(n: nat, key: Key)
      requires Structure() && n < |tree| && live[n] && nodes[0].arrays != map[] && SetUp() && SparesAgree()
      requires SparesAtHead(live, nodes, n, key) && key in nodes[n].arrays
      requires !nodes[n].arrays[key].atHead ==> Unshared(live, nodes, n, key)
      requires HasFamily(n) || !nodes[0].Lazy() || (nodes[0].arrays.Keys == {key} && !nodes[n].arrays[key].atHead)
      modifies this`nodes, Mem()
      ensures Structure() && nodes[0].arrays != map[] && SetUp() && Mem() == old(Mem()) && Vector() == old(Vector())
      ensures SparesAgree() && SameSpares(live, nodes, old(nodes)) && SparesAtHead(live, nodes, n, key)
      ensures key in nodes[n].arrays && nodes[n].arrays[key].block in Repr && Settled(n, key)
      ensures !nodes[n].arrays[key].atHead ==> Unshared(live, nodes, n, key)
      ensures forall j :: 0 <= j < |tree| ==> nodes[j] == old(nodes)[j] || nodes[j] == old(nodes)[j].Quiet()
      ensures if HasFamily(n) then Flushed(tree, live, old(nodes), nodes, n) else nodes == old(nodes)
    {
      hide Flushed, Stirred, Start, Logical, AllAtHead, HeadKey;
      ghost var acquired := nodes;
      if !HasFamily(n) {
        EveryoneUnderRoot();
        LoneRoot(n);
      }
      Evaluate(n);
      assert nodes[n].arrays == acquired[n].arrays;
      BlockOwned(n, key);
    }

    lemma BlockOwned(n: nat, key: Key)
      requires Structure() && n < |tree| && live[n] && nodes[0].arrays != map[] && SetUp() && SparesAgree() && key in nodes[n].arrays
      ensures nodes[n].arrays[key].block in Repr
    {
      assert HeadSet(tree, nodes[0].head.key, nodes[0].head.dtype, Mem(), n, nodes[n]);
      assert Spare(live, nodes, n, key) || key == nodes[n].head.key;
    }

    /** Either nothing has an array and the root has a request, or the family is set up. */
    ghost predicate Syncable(n: nat)
      reads `tree, `live, `children, `nodes, `Repr, Repr
      requires Structure()
    {
      if nodes[0].arrays == map[] then n == 0 && AllBare() && nodes[0].Lazy()
      else SetUp() && !nodes[0].Lazy() && SparesAgree() && AllAtHead(live, nodes)
    }

    /** `sync` once the root has an array. */
    method SyncHere(n: nat, place: Place, d: DType, writeOnly: bool) returns (key: Key)
      requires Faithful(conv) && OneRequest(nodes) && Structure() && n < |tree| && live[n] && Syncable(n)
      modifies this`nodes, this`Repr, Repr
      ensures OneRequest(nodes) && Structure() && fresh(Repr - old(Repr)) && old(Repr) <= Repr
      ensures nodes[0].arrays != map[] && SetUp() && SparesAgree() && SparesAtHead(live, nodes, n, key)
      ensures Store() == Settle(conv, old(Store()), place, d)
      ensures key in nodes[n].arrays
      ensures key == if nodes[0].head.key == Plain(place, d) then nodes[n].head.key else Plain(place, d)
      ensures HasFamily(n) || !writeOnly ==> (forall j :: InLineage(j, n) ==> !nodes[j].Lazy()) && Flushed(tree, live, old(nodes), nodes, n)
      ensures !writeOnly && key != nodes[n].head.key ==>
                nodes[n].arrays[key].block[..] == ConvertAll(conv, nodes[0].head.dtype, d, Interval(tree, Vector(), n))
      ensures forall j :: 0 <= j < |tree| ==> nodes[j].Calmer(old(nodes)[j])
      ensures old(nodes[0].arrays) == map[] ==> nodes[0].arrays.Keys == {key} && forall j, key' :: !Spare(live, nodes, j, key')
    {
      hide Flushed, Stirred, SameLazy, Below, Start, Logical, Settle, SparesHold, AllAtHead, SparesAtHead, WellRooted;
      key := Locate(n, place, d);
      if !writeOnly {
        ghost var located := nodes;
        assert HeadSet(tree, nodes[0].head.key, nodes[0].head.dtype, Mem(), n, nodes[n]);
        Refresh(n, key, d);
        assert forall j, key' :: Spare(live, nodes, j, key') ==> Spare(live, located, j, key');
        RefreshedFlushed(old(nodes), located, n);
      }
    }

    lemma RefreshedFlushed(before: seq<Node>, located: seq<Node>, n: nat)
      requires Structure() && |before| == |located| == |tree| && n < |tree| && live[n]
      requires if HasFamily(n) then Flushed(tree, live, before, located, n) else SameLazy(before, located)
      requires nodes == located || nodes == located[n := located[n].Quiet()]
      requires forall j :: InLineage(j, n) ==> !nodes[j].Lazy()
      ensures Flushed(tree, live, before, nodes, n)
    {
      assert InLineage(n, n);
      if HasFamily(n) {
        assert !located[n].Lazy();
        FlushedBetween(tree, live, before, before, located, nodes, n);
      } else {
        Upward(tree, live, n, n);
        EveryoneUnderRoot();
        FlushedAll(tree, live, before, nodes, n);
      }
    }

    /** `sync`: the array of node `n` for a place and type, up to date unless it is to be overwritten. */
    method Sync(n: nat, place: Place, d: DType, writeOnly: bool) returns (key: Key)
      requires Faithful(conv) && OneRequest(nodes) && Structure() && n < |tree| && live[n] && Syncable(0)
      modifies this`nodes, this`Repr, Repr
      ensures OneRequest(nodes) && Structure() && fresh(Repr - old(Repr)) && old(Repr) <= Repr
      ensures nodes[0].arrays != map[] && SetUp() && SparesAgree() && SparesAtHead(live, nodes, n, key)
      ensures Store() == Settle(conv, old(Store()), place, d)
      ensures key in nodes[n].arrays
      ensures key == if nodes[0].head.key == Plain(place, d) then nodes[n].head.key else Plain(place, d)
      ensures HasFamily(n) || !writeOnly ==> (forall j :: InLineage(j, n) ==> !nodes[j].Lazy()) && Flushed(tree, live, old(nodes), nodes, n)
      ensures !writeOnly && key != nodes[n].head.key ==>
                nodes[n].arrays[key].block[..] == ConvertAll(conv, nodes[0].head.dtype, d, Interval(tree, Vector(), n))
      ensures forall j :: 0 <= j < |tree| ==> nodes[j].Calmer(old(nodes)[j])
    {
      ghost var before, store := nodes, Store();
      SyncRootFirst(n, place, d, writeOnly);
      ghost var ready := nodes;
      key := SyncHere(n, place, d, writeOnly);
      SettledTwice(conv, store, place, d);
      if ready != before {
        RootFirst(before, ready, n);
      }
    }

    /** The first part of `sync`: a view without an array has the root brought up to date. */
    method SyncRootFirst(n: nat, place: Place, d: DType, writeOnly: bool)
      requires Faithful(conv) && OneRequest(nodes) && Structure() && n < |tree| && live[n] && Syncable(0)
      modifies this`nodes, this`Repr, Repr
      ensures OneRequest(nodes) && Structure() && fresh(Repr - old(Repr)) && old(Repr) <= Repr && Syncable(n)
      ensures forall j :: 0 <= j < |tree| ==> nodes[j].Calmer(old(nodes)[j])
      ensures || (nodes == old(nodes) && Store() == old(Store()))
              || (&& n > 0 && old(nodes[0]).Lazy() && Store() == Settle(conv, old(Store()), place, d)
                  && Flushed(tree, live, old(nodes), nodes, 0))
    {
      if tree[n].parent >= 0 && !nodes[n].HasHeadArray() {
        EveryoneUnderRoot();
        var rootKey := SyncHere(0, place, d, writeOnly);
        assert InLineage(0, 0);
        assert AllAtHead(live, nodes) by {
          if nodes[0].head.key == Plain(place, d) {
            assert !Spare(live, nodes, 0, rootKey);
          }
        }
      } else if nodes[0].arrays != map[] {
        assert HeadSet(tree, nodes[0].head.key, nodes[0].head.dtype, Mem(), n, nodes[n]);
      }
    }

    /** Once the root has been brought up to date nothing is left to execute. */
    lemma RootFirst(before: seq<Node>, ready: seq<Node>, n: nat)
      requires Structure() && |before| == |ready| == |tree| && n < |tree| && live[n] && before[0].Lazy()
      requires Flushed(tree, live, before, ready, 0) && Flushed(tree, live, ready, nodes, n)
      ensures Flushed(tree, live, before, nodes, n)
    {
      forall j: nat | j < |tree| ensures Below(tree, j, 0) {
        EveryoneBelowRoot(tree, j);
      }
      FlushedAll(tree, live, before, nodes, n);
    }

    /** `sync` left the array of `key` up to date. */
    ghost predicate UpToDate(n: nat, key: Key, d: DType)
      reads `tree, `live, `children, `nodes, `Repr, Repr
      requires Structure() && n < |tree| && nodes[0].arrays != map[] && SetUp() && SparesAgree()
    {
      && live[n] && key in nodes[n].arrays && nodes[n].head.Head?
      && SparesAtHead(live, nodes, n, key)
      && (forall j :: InLineage(j, n) ==> !nodes[j].Lazy())
      && if key == nodes[n].head.key then d == nodes[n].head.dtype
         else
           && Spare(live, nodes, n, key) && key.Plain? && key.dtype == d
           && nodes[n].arrays[key].block[..] == ConvertAll(conv, nodes[0].head.dtype, d, Interval(tree, Vector(), n))
    }

    method SetAtHead(n: nat, key: Key, ghost d: DType)
      requires Structure() && OneRequest(nodes) && n < |tree|
      requires nodes[0].arrays != map[] && SetUp() && SparesAgree() && UpToDate(n, key, d)
      modifies this`nodes
      ensures Structure() && OneRequest(nodes) && nodes[0].arrays != map[] && SetUp() && SparesAgree()
      ensures AllAtHead(live, nodes) && Store() == old(Store())
      ensures forall j :: 0 <= j < |tree| ==> nodes[j].Flags() == old(nodes)[j].Flags()
    {
      ghost var before, vector, head, mem := nodes, Vector(), nodes[0].head, Mem();
      nodes := nodes[n := nodes[n].(arrays := nodes[n].arrays[key := nodes[n].arrays[key].(atHead := true)])];
      MarkedAtHead(conv, tree, live, before, nodes, vector, head, mem, Repr, n, key);
      assert Vector() == vector;
    }

    method ReadValues(n: nat, key: Key, ghost d: DType) returns (vals: seq<Value>)
      requires Faithful(conv) && Structure() && n < |tree|
      requires nodes[0].arrays != map[] && SetUp() && SparesAgree() && UpToDate(n, key, d)
      ensures vals == ConvertAll(conv, nodes[0].head.dtype, d, Interval(tree, Vector(), n))
    {
      assert HeadSet(tree, nodes[0].head.key, nodes[0].head.dtype, Mem(), n, nodes[n]);
      var array_ := nodes[n].arrays[key];
      EveryoneBelowRoot(tree, n);
      BelowInside(tree, n, 0);
      vals := array_.block[array_.offset..array_.offset + tree[n].size];
      if key == nodes[n].head.key {
        QuietCells(conv, d, tree, live, nodes, n, Mem()[..]);
        assert Interval(tree, Vector(), n) == vals;
      }
    }

    /** The requirements of `Valid` that speak of one operation's outcome. */
    lemma ZeroingKept(before: seq<Node>, store: Store, place: Place, d: DType)
      requires Structure() && |before| == |tree| && (nodes[0].arrays != map[] ==> SetUp())
      requires forall j :: 0 <= j < |tree| ==> nodes[j].zeroing == before[j].zeroing
      requires forall j :: 0 <= j < |tree| && live[j] && before[j].zeroing ==> AllZero(tree, store, j)
      requires Store() == Settle(conv, store, place, d)
      ensures ZeroingSound()
    {
      forall j | 0 <= j < |tree| && live[j] && nodes[j].zeroing ensures AllZero(tree, Store(), j) {
        assert AllZero(tree, store, j);
      }
    }

    method GetValues(n: nat, place: Place, d: DType) returns (vals: seq<Value>)
      requires Faithful(conv) && OneRequest(nodes) && Structure() && n < |tree| && live[n] && Syncable(0)
      modifies this`nodes, this`Repr, Repr
      ensures OneRequest(nodes) && Structure() && fresh(Repr - old(Repr)) && !nodes[n].Lazy()
      ensures nodes[0].arrays != map[] && SetUp() && !nodes[0].Lazy() && SparesAgree() && AllAtHead(live, nodes)
      ensures Store() == Settle(conv, old(Store()), place, d)
      ensures vals == ConvertAll(conv, Store().dtype, d, Interval(tree, Store().vals, n))
      ensures forall j :: 0 <= j < |tree| ==> nodes[j].Calmer(old(nodes)[j])
      ensures Flushed(tree, live, old(nodes), nodes, n)
    {
      hide Flushed, Stirred, Start, Logical, Settle, SparesHold, AllAtHead, SparesAtHead, Spare, WellRooted;
      var key := Sync(n, place, d, false);
      ghost var synced := nodes;
      assert HeadSet(tree, nodes[0].head.key, nodes[0].head.dtype, Mem(), n, nodes[n]);
      assert InLineage(0, n) by { EveryoneBelowRoot(tree, n); }
      vals := ReadValues(n, key, d);
      SetAtHead(n, key, d);
      assert nodes[0].Flags() == synced[0].Flags();
      assert forall j :: 0 <= j < |tree| ==> nodes[j].Flags() == synced[j].Flags();
      FlushedBetween(tree, live, old(nodes), old(nodes), synced, nodes, n);
    }

    method GetCore(n: nat, place: Place, d: DType) returns (vals: seq<Value>)
      requires Core() && n < |tree| && live[n]
      modifies this`nodes, this`Repr, Repr
      ensures Core() && fresh(Repr - old(Repr)) && !nodes[n].Lazy()
      ensures Store() == Settle(conv, old(Store()), place, d)
      ensures vals == ConvertAll(conv, Store().dtype, d, Interval(tree, Store().vals, n))
      ensures forall j :: 0 <= j < |tree| ==> nodes[j].Calmer(old(nodes)[j])
      ensures Flushed(tree, live, old(nodes), nodes, n)
    {
      ghost var store, before := Store(), nodes;
      vals := GetValues(n, place, d);
      ZeroingKept(before, store, place, d);
    }

    /** `get`: the values of node `n` at a place and type, without moving the head. */
    method Get(n: nat, place: Place, d: DType) returns (vals: seq<Value>)
      requires Valid() && n < |tree| && live[n]
      modifies this`nodes, this`Repr, this`pending, Repr
      ensures Valid() && fresh(Repr - old(Repr))
      ensures (View(), Values(vals)) == Execute(conv, old(View()), EagerVector.Op.Get(n, place, d))
      // number for number, from the type that the root's head has; `StoreIs` gives the vector in fields
      ensures ReadsAs(conv, old(View()).store, Start(tree, n), tree[n].size, d, vals)
      ensures |old(nodes)| > 0
      ensures if old(nodes)[0].arrays == map[] then old(View()).store.Constants?
              else old(View()).store.Elements? && old(nodes)[0].head.Head? && old(View()).store.dtype == old(nodes)[0].head.dtype
    {
      ghost var e := View();
      hide *;
      StoreIs();
      Reads(conv, e, n, place, d);
      vals := GetNow(n, place, d);
    }

    method GetNow(n: nat, place: Place, d: DType) returns (vals: seq<Value>)
      requires Valid() && n < |tree| && live[n]
      modifies this`nodes, this`Repr, this`pending, Repr
      ensures Valid() && fresh(Repr - old(Repr))
      ensures (View(), Values(vals)) == Execute(conv, old(View()), EagerVector.Op.Get(n, place, d))
    {
      ghost var e, before := View(), nodes;
      vals := GetCore(n, place, d);
      PendingAfter(e, before, n);
      pending := Unexecuted(e, n);
    }

    /** The reference's vector in this family's fields. */
    lemma StoreIs()
      requires Valid()
      ensures Faithful(conv) && |nodes| == |tree| > 0 && |live| == |tree| && WellRooted(tree)
      ensures View().tree == tree && View().live == live && ValidEager(View())
      ensures if nodes[0].arrays == map[] then View().store == Constants(ConstantCells(tree, live, nodes))
              else Structure() && SetUp() && View().store == Elements(nodes[0].head.key.place, nodes[0].head.dtype, Vector())
                   && nodes[0].head == Head(Plain(nodes[0].head.key.place, nodes[0].head.dtype), nodes[0].head.dtype)
    {
    }

    /** What the reference takes for executed has been executed, and nothing else. */
    lemma PendingAfter(e: Eager, before: seq<Node>, n: nat)
      requires ValidEager(e) && WellRooted(tree) && |live| == |nodes| == |before| == |tree| && n < |tree|
      requires e.tree == tree && e.live == live && Flushed(tree, live, before, nodes, n) && Listed(live, before, e.pending)
      requires forall j :: 0 <= j < |tree| && live[j] && nodes[j].Lazy() ==> nodes[j].Request() == before[j].Request()
      ensures Listed(live, nodes, Unexecuted(e, n))
    {
      hide Below;
      forall j: nat | j < |tree| ensures Reaches(e, n, j) <==> Stirred(tree, live, before, n, j) {
      }
    }

    /** After `head_` of the root has moved: throw away the descendants' arrays and link them anew. */
    method Relink(ghost key: Key, ghost d: DType)
      requires Structure() && nodes[0].head == Head(key, d) && key in nodes[0].arrays && nodes[0].arrays[key].offset == 0
      requires forall j :: 0 < j < |tree| && live[j] ==> nodes[j].HeadReady()
      modifies this`nodes
      ensures Structure() && nodes[0] == old(nodes)[0]
      ensures HeadsSet(tree, live, nodes, key, d, nodes[0].arrays[key].block)
      ensures forall j, key' :: j != 0 ==> !Spare(live, nodes, j, key')
      ensures forall j :: 0 < j < |tree| && live[j] ==> !nodes[j].Lazy() && nodes[j].zeroing == old(nodes)[j].zeroing
      ensures forall j :: 0 < j < |tree| && !live[j] ==> nodes[j] == old(nodes)[j]
    {
      hide *;
      UnderRoot();
      ghost var before, block := nodes, nodes[0].arrays[key].block;
      RootHead(tree, key, d, nodes[0]);
      ClearAllArrayDescendants(0, false);
      ghost var cleared := nodes;
      UnderRoot();
      Cleared(tree, live, before, cleared);
      CreateArrayDescendants(0, key, d, nodes[0].arrays[key].block);
      UnderRoot();
      LinkedAnew(tree, live, before, cleared, nodes, key, d, block);
    }

    lemma UnderRoot()
      requires Structure()
      ensures WellRooted(tree) && |live| == |nodes| == |tree| && live[0]
      ensures forall j: nat :: j < |tree| ==> (Under(tree, live, j, 0) <==> j > 0 && live[j])
    {
      EveryoneUnderRoot();
    }

    /** The other way: keep every head array of the family and nothing else. */
    method DropSpares()
      requires Structure() && nodes[0].HeadReady() && HeadsSet(tree, live, nodes, nodes[0].head.key, nodes[0].head.dtype, Mem())
      modifies this`nodes
      ensures Structure()
      ensures forall j :: 0 <= j < |tree| ==> nodes[j] == if live[j] then old(nodes)[j].Trimmed(true) else old(nodes)[j]
    {
      ghost var before := nodes;
      EveryoneUnderRoot();
      forall j | 0 <= j < |tree| && live[j] ensures before[j].HeadReady() {
        assert HeadSet(tree, nodes[0].head.key, nodes[0].head.dtype, Mem(), j, nodes[j]);
      }
      nodes := nodes[0 := nodes[0].OnlyHead()];
      ClearAllArrayDescendants(0, true);
    }

    /** `cast_sp` leaves the node with the one array it returns, marked at head. */
    method KeepOnly(n: nat, key: Key)
      requires n < |nodes| && key in nodes[n].arrays
      modifies this`nodes
      ensures nodes == old(nodes)[n := old(nodes)[n].Emptied().(arrays := map[key := old(nodes)[n].arrays[key].(atHead := true)])]
    {
      var created := nodes[n].arrays[key];
      ClearAllArray(n);
      nodes := nodes[n := nodes[n].(arrays := nodes[n].arrays[key := created.(atHead := true)])];
    }

    /** The array that `sync` leaves at the root is the whole vector, converted. */
    lemma RootContent(key: Key, d: DType)
      requires Faithful(conv) && Structure() && nodes[0].arrays != map[] && SetUp() && SparesAgree() && UpToDate(0, key, d)
      ensures nodes[0].arrays[key].block[..] == ConvertAll(conv, nodes[0].head.dtype, d, Vector())
    {
      assert HeadSet(tree, nodes[0].head.key, nodes[0].head.dtype, Mem(), 0, nodes[0]);
      if key == nodes[0].head.key {
        QuietCells(conv, d, tree, live, nodes, 0, Mem()[..]);
        assert Mem()[..] == Vector();
      } else {
        assert Interval(tree, Vector(), 0) == Vector();
      }
    }

    /** Step 2 of `cast_sp` on the root: the descendants follow the head. */
    method FollowRoot(same: bool, key: Key, ghost d: DType)
      requires Structure() && nodes[0].head == Head(key, d) && key in nodes[0].arrays && nodes[0].arrays[key].offset == 0
      requires forall j :: 0 < j < |tree| && live[j] ==> nodes[j].HeadReady() && !nodes[j].Lazy()
      requires same ==> HeadsSet(tree, live, nodes, key, d, nodes[0].arrays[key].block)
      modifies this`nodes
      ensures Structure()
      ensures nodes[0] == old(nodes)[0] || nodes[0] == old(nodes)[0].OnlyHead()
      ensures HeadsSet(tree, live, nodes, key, d, old(nodes)[0].arrays[key].block)
      ensures forall j, key' :: j != 0 ==> !Spare(live, nodes, j, key')
      ensures forall j :: 0 < j < |tree| && live[j] ==> !nodes[j].Lazy() && nodes[j].zeroing == old(nodes)[j].zeroing
      ensures forall j :: 0 < j < |tree| && !live[j] ==> nodes[j] == old(nodes)[j]
    {
      ghost var before, block := nodes, nodes[0].arrays[key].block;
      EveryoneUnderRoot();
      if HasFamily(0) {
        if !same {
          Relink(key, d);
        } else {
          DropSpares();
          TrimmedHeads(tree, live, before, nodes, key, d, block);
        }
      } else {
        assert HeadSet(tree, key, d, block, 0, nodes[0]);
      }
    }

    /** Steps 1 and 2 of `cast_sp` on the root: the head moves, and every view moves along. */
    method MoveRoot(place: Place, d: DType, writeOnly: bool) returns (key: Key)
      requires Faithful(conv) && OneRequest(nodes) && Structure() && Syncable(0)
      modifies this`nodes, this`Repr, Repr
      ensures OneRequest(nodes) && Structure() && fresh(Repr - old(Repr)) && old(Repr) <= Repr
      ensures key == Plain(place, d) && nodes[0].head == Head(key, d) && key in nodes[0].arrays
      ensures var mem := nodes[0].arrays[key].block;
              && HeadsSet(tree, live, nodes, key, d, mem) && mem in Repr && mem.Length == tree[0].size
              && (!writeOnly ==> mem[..] == var s := Settle(conv, old(Store()), place, d); ConvertAll(conv, s.dtype, d, s.vals))
      ensures forall j, key' :: j != 0 ==> !Spare(live, nodes, j, key')
      ensures forall j :: 0 < j < |tree| && live[j] ==> !nodes[j].Lazy()
      ensures forall j :: 0 <= j < |tree| && live[j] ==> nodes[j].Calmer(old(nodes)[j])
    {
      hide Flushed, Below, Logical, SparesHold, AllAtHead, SparesAtHead, HeadKey, Spare, Interval, ConvertAll;
      var prevHead := nodes[0].head;
      key := Sync(0, place, d, writeOnly);
      EveryoneUnderRoot();
      RootArray(key);
      if !writeOnly {
        RootContent(key, d);
      }
      ghost var synced, head, mem := nodes, nodes[0].head, Mem();
      nodes := nodes[0 := nodes[0].(head := Head(key, d))];
      forall j | 0 < j < |tree| && live[j] ensures nodes[j].HeadReady() && !nodes[j].Lazy() {
        assert HeadSet(tree, head.key, head.dtype, mem, j, synced[j]);
        assert InLineage(j, 0);
      }
      var same := prevHead.Head? && prevHead.key == key;
      assert same ==> nodes == synced;
      ghost var moved := nodes;
      FollowRoot(same, key, d);
      Followed(live, old(nodes), synced, moved, nodes);
    }

    lemma RootArray(key: Key)
      requires Structure() && nodes[0].arrays != map[] && SetUp() && SparesAgree() && key in nodes[0].arrays
      ensures var e := nodes[0].arrays[key]; e.block in Repr && e.block.Length == tree[0].size && e.offset == 0
    {
      assert HeadSet(tree, nodes[0].head.key, nodes[0].head.dtype, Mem(), 0, nodes[0]);
      assert key == nodes[0].head.key || Spare(live, nodes, 0, key);
    }

    /** `cast_sp` on the root. */
    method CastRoot(place: Place, d: DType, writeOnly: bool)
      requires Faithful(conv) && OneRequest(nodes) && Structure() && Syncable(0)
      modifies this`nodes, this`Repr, Repr
      ensures OneRequest(nodes) && Structure() && fresh(Repr - old(Repr)) && old(Repr) <= Repr
      ensures nodes[0].arrays != map[] && SetUp() && Slim(live, nodes)
      ensures forall j :: InLineage(j, 0) ==> !nodes[j].Lazy()
      ensures nodes[0].head == Head(Plain(place, d), d)
      ensures !writeOnly ==>
                Vector() == var s := Settle(conv, old(Store()), place, d); ConvertAll(conv, s.dtype, d, s.vals)
      ensures forall j :: 0 <= j < |tree| && live[j] ==> nodes[j].Calmer(old(nodes)[j])
      ensures Flushed(tree, live, old(nodes), nodes, 0)
    {
      var key := MoveRoot(place, d, writeOnly);
      ghost var moved, mem := nodes, nodes[0].arrays[key].block;
      KeepOnly(0, key);
      KeptHead(tree, live, moved, nodes, key, d, mem, 0);
      QuietCells(conv, d, tree, live, nodes, 0, mem[..]);
      assert Vector() == mem[..];
      RootQuiet(old(nodes));
    }

    lemma RootQuiet(before: seq<Node>)
      requires Structure() && |before| == |tree| && forall j :: InLineage(j, 0) ==> !nodes[j].Lazy()
      ensures Flushed(tree, live, before, nodes, 0)
    {
      EveryoneUnderRoot();
      FlushedAll(tree, live, before, nodes, 0);
    }

    /** The rest of step 2 on a view: only head arrays survive, and this node's is at head. */
    method KeepHeads(n: nat)
      requires Structure() && OneRequest(nodes) && n < |tree| && live[n] && nodes[0].arrays != map[] && SetUp()
      requires !nodes[n].Lazy() && nodes[n].HeadReady()
      modifies this`nodes
      ensures Structure() && OneRequest(nodes) && nodes[0].arrays != map[] && SetUp() && Slim(live, nodes)
      ensures Mem() == old(Mem()) && nodes[0].head == old(nodes[0].head) && Requests(nodes) == old(Requests(nodes))
      ensures forall j :: 0 <= j < |tree| ==> nodes[j].Flags() == old(nodes)[j].Flags()
    {
      ghost var before, head, mem := nodes, nodes[0].head, Mem();
      var key := nodes[n].head.key;
      DropSpares();
      TrimmedHeads(tree, live, before, nodes, head.key, head.dtype, mem);
      ghost var trimmed := nodes;
      KeepOnly(n, key);
      KeptHead(tree, live, trimmed, nodes, head.key, head.dtype, mem, n);
      assert HeadSet(tree, head.key, head.dtype, mem, 0, nodes[0]);
      assert Requests(nodes) == Requests(before);
    }

    /** `cast_sp` on a view whose root has, or is about to get, the requested place and type. */
    method CastView(n: nat, place: Place, d: DType, writeOnly: bool)
      requires Faithful(conv) && OneRequest(nodes) && Structure() && Syncable(0) && 0 < n < |tree| && live[n]
      requires nodes[0].arrays == map[] || nodes[0].head == Head(Plain(place, d), d)
      modifies this`nodes, this`Repr, Repr
      ensures OneRequest(nodes) && Structure() && fresh(Repr - old(Repr)) && old(Repr) <= Repr
      ensures nodes[0].arrays != map[] && SetUp() && Slim(live, nodes)
      ensures forall j :: InLineage(j, n) ==> !nodes[j].Lazy()
      ensures Store() == Settle(conv, old(Store()), place, d)
      ensures forall j :: 0 <= j < |tree| ==> nodes[j].Calmer(old(nodes)[j])
      ensures Flushed(tree, live, old(nodes), nodes, n)
    {
      var key := Sync(n, place, d, writeOnly);
      ghost var synced := nodes;
      assert HeadSet(tree, nodes[0].head.key, nodes[0].head.dtype, Mem(), n, nodes[n]);
      nodes := nodes[n := nodes[n].(head := Head(key, d))];
      assert nodes == synced;
      assert InLineage(n, n);
      KeepHeads(n);
      assert Vector() == Logical(conv, nodes[0].head.dtype, tree, live, synced, Mem()[..]);
      assert forall j :: 0 <= j < |tree| ==> nodes[j].Flags() == synced[j].Flags();
      FlushedBetween(tree, live, old(nodes), old(nodes), synced, nodes, n);
    }

    /** `propagate_zeroing_flag(false)`, seen from a family that is set up. */
    method PropagateZeroing(n: nat)
      requires OneRequest(nodes) && Structure() && n < |tree| && live[n] && nodes[0].arrays != map[] && SetUp() && Slim(live, nodes)
      modifies this`nodes
      ensures OneRequest(nodes) && Structure() && nodes[0].arrays != map[] && SetUp() && Slim(live, nodes)
      ensures Mem() == old(Mem()) && Store() == old(Store()) && nodes[0].head == old(nodes[0].head)
      ensures forall j :: 0 <= j < |tree| ==>
                nodes[j] == if InLineage(j, n) then old(nodes)[j].Marked(false) else old(nodes)[j]
    {
      ghost var before, head, mem, vector := nodes, nodes[0].head, Mem(), Vector();
      PropagateZeroingFlag(n, false);
      MarksOnly(tree, live, before, nodes, head.key, head.dtype, mem);
      assert Vector() == vector;
    }

    /** `cast_sp`: the array of node `n`, made the only copy of the data. */
    method Cast(n: nat, place: Place, d: DType, writeOnly: bool) returns (handle: Entry)
      requires Faithful(conv) && OneRequest(nodes) && Structure() && Syncable(0) && n < |tree| && live[n]
      requires n == 0 || nodes[0].arrays == map[] || nodes[0].head == Head(Plain(place, d), d)
      modifies this`nodes, this`Repr, Repr
      ensures OneRequest(nodes) && Structure() && fresh(Repr - old(Repr)) && old(Repr) <= Repr
      ensures nodes[0].arrays != map[] && SetUp() && Slim(live, nodes)
      ensures handle.block == Mem() && handle.offset == Start(tree, n)
      ensures forall j :: InLineage(j, n) ==> !nodes[j].Lazy() && !nodes[j].zeroing
      ensures n == 0 ==> nodes[0].head == Head(Plain(place, d), d)
      ensures n == 0 && !writeOnly ==>
                Vector() == var s := Settle(conv, old(Store()), place, d); ConvertAll(conv, s.dtype, d, s.vals)
      ensures n != 0 ==> Store() == Settle(conv, old(Store()), place, d)
      ensures forall j :: 0 <= j < |tree| && live[j] && !InLineage(j, n) ==> nodes[j].Calmer(old(nodes)[j])
      ensures Flushed(tree, live, old(nodes), nodes, n)
    {
      if tree[n].parent == -1 {
        CastRoot(place, d, writeOnly);
      } else {
        CastView(n, place, d, writeOnly);
      }
      ghost var before := nodes;
      PropagateZeroing(n);
      FlushedBetween(tree, live, old(nodes), old(nodes), before, nodes, n);
      assert HeadSet(tree, nodes[0].head.key, nodes[0].head.dtype, Mem(), n, nodes[n]);
      handle := nodes[n].arrays[nodes[n].head.key];
    }

    /** The caller overwrites the stretch it was handed. */
    method WriteThrough(n: nat, handle: Entry, data: seq<Value>)
      requires Structure() && n < |tree| && live[n] && |data| == tree[n].size
      requires nodes[0].arrays != map[] && SetUp() && Slim(live, nodes)
      requires handle.block == Mem() && handle.offset == Start(tree, n)
      requires forall j :: InLineage(j, n) ==> !nodes[j].Lazy()
      modifies handle.block
      ensures SetUp() && Vector() == Overwrite(tree, old(Vector()), n, data)
    {
      ghost var was := Mem()[..];
      EveryoneBelowRoot(tree, n);
      BelowInside(tree, n, 0);
      WriteRange(handle.block, handle.offset, data);
      WrittenThrough(conv, nodes[0].head.dtype, tree, live, nodes, n, was, Mem()[..], data);
    }

    /** What the handle shows before the caller writes. */
    method ReadThrough(n: nat, handle: Entry) returns (vals: seq<Value>)
      requires Structure() && n < |tree| && live[n] && nodes[0].arrays != map[] && SetUp()
      requires handle.block == Mem() && handle.offset == Start(tree, n)
      requires forall j :: InLineage(j, n) ==> !nodes[j].Lazy()
      ensures vals == Interval(tree, Vector(), n)
    {
      EveryoneBelowRoot(tree, n);
      BelowInside(tree, n, 0);
      QuietCells(conv, nodes[0].head.dtype, tree, live, nodes, n, Mem()[..]);
      vals := handle.block[handle.offset..handle.offset + tree[n].size];
    }

    /** The zeros of a node whose mark survived a write to `n` are out of the write's reach. */
    lemma ZeroingBeyond(n: nat, before: seq<Node>, store: Store, data: seq<Value>)
      requires Structure() && n < |tree| && live[n] && |before| == |tree| && |data| == tree[n].size
      requires nodes[0].arrays != map[] && SetUp() && store.Elements? && |store.vals| == tree[0].size
      requires Vector() == Overwrite(tree, store.vals, n, data)
      requires forall j :: 0 <= j < |tree| && live[j] && before[j].zeroing ==> AllZero(tree, store, j)
      requires forall j :: InLineage(j, n) ==> !nodes[j].zeroing
      requires forall j :: 0 <= j < |tree| && live[j] && !InLineage(j, n) ==> nodes[j].zeroing == before[j].zeroing
      ensures ZeroingSound()
    {
      forall j | 0 <= j < |tree| && live[j] && nodes[j].zeroing ensures AllZero(tree, Store(), j) {
        assert AllZero(tree, store, j);
        forall k | 0 <= k < tree[0].size && Covers(tree, j, k) ensures !Covers(tree, n, k) {
          if Covers(tree, n, k) {
            if j <= n { CoverChain(tree, live, j, n, k); } else { CoverChain(tree, live, n, j, k); }
            assert false;
          }
        }
      }
    }

    method CastAndWriteCore(n: nat, place: Place, d: DType, writeOnly: bool, data: seq<Value>) returns (vals: seq<Value>)
      requires Core() && n < |tree| && live[n] && |data| == tree[n].size
      requires n == 0 || nodes[0].arrays == map[] || nodes[0].head == Head(Plain(place, d), d)
      modifies this`nodes, this`Repr, Repr
      ensures Core() && fresh(Repr - old(Repr)) && !nodes[n].Lazy()
      ensures Flushed(tree, live, old(nodes), nodes, n)
      ensures n == 0 ==> Store() == Elements(place, d, data)
      ensures n == 0 && !writeOnly ==>
                vals == var s := Settle(conv, old(Store()), place, d); ConvertAll(conv, s.dtype, d, s.vals)
      ensures n != 0 ==> var s := Settle(conv, old(Store()), place, d);
                Store() == s.(vals := Overwrite(tree, s.vals, n, data)) && (!writeOnly ==> vals == Interval(tree, s.vals, n))
      ensures forall j :: 0 <= j < |tree| && live[j] && nodes[j].Lazy() ==> nodes[j].Request() == old(nodes)[j].Request()
    {
      hide Flushed, Stirred, Logical, HeadKey, HeadsSet, HeadSet, ConvertAll, WellRooted, Deepest, Requests, Shallow;
      ghost var store, before := Store(), nodes;
      var handle := Cast(n, place, d, writeOnly);
      vals := ReadThrough(n, handle);
      ghost var cast := Store();
      assert n == 0 ==> Interval(tree, cast.vals, n) == cast.vals;
      WriteThrough(n, handle, data);
      assert InLineage(n, n);
      if n == 0 {
        RootInLineage();
        assert Overwrite(tree, cast.vals, n, data) == data;
      } else {
        assert InLineage(0, n) by { EveryoneBelowRoot(tree, n); }
        ZeroSettles(conv, tree, live, before, store, place, d);
        ZeroingBeyond(n, before, cast, data);
      }
    }

    /** `cast` of a node followed by the caller's writes through the handle. */
    method CastAndWrite(n: nat, place: Place, d: DType, writeOnly: bool, data: seq<Value>) returns (r: Outcome)
      requires Valid() && n < |tree| && live[n] && |data| == tree[n].size
      modifies this`nodes, this`Repr, this`pending, Repr
      ensures Valid() && fresh(Repr - old(Repr))
      ensures (View(), r) == Execute(conv, old(View()), EagerVector.Op.CastAndWrite(n, place, d, writeOnly, data))
      // refused for a view exactly if the root is in use at another place or type; else number for number
      ensures |old(nodes)| > 0
      ensures r.Failed? <==> n != 0 && old(nodes)[0].arrays != map[] && old(nodes)[0].head != Head(Plain(place, d), d)
      ensures if r.Failed? then View() == old(View())
              else Wrote(conv, old(View()).store, Start(tree, n), place, d, writeOnly, data, View().store, r)
    {
      ghost var e := View();
      hide *;
      StoreIs();
      Writes(conv, e, n, place, d, writeOnly, data);
      r := CastAndWriteNow(n, place, d, writeOnly, data);
    }

    method CastAndWriteNow(n: nat, place: Place, d: DType, writeOnly: bool, data: seq<Value>) returns (r: Outcome)
      requires Valid() && n < |tree| && live[n] && |data| == tree[n].size
      modifies this`nodes, this`Repr, this`pending, Repr
      ensures Valid() && fresh(Repr - old(Repr))
      ensures (View(), r) == Execute(conv, old(View()), EagerVector.Op.CastAndWrite(n, place, d, writeOnly, data))
    {
      hide Flushed, Logical, Settle, Kin, SparesHold, AllAtHead, HeadsSet, Interval, ConvertAll;
      if tree[n].parent >= 0 && nodes[0].HasHeadArray() && nodes[0].head.key != Plain(place, d) {
        return Failed;
      }
      ghost var e, before := View(), nodes;
      var vals := CastAndWriteCore(n, place, d, writeOnly, data);
      PendingAfter(e, before, n);
      pending := Unexecuted(e, n);
      CastMatches(conv, e, n, place, d, writeOnly, data, Store(), vals);
      r := if writeOnly then Done else Values(vals);
    }

    lemma RootInLineage()
      requires Structure()
      ensures forall j :: 0 <= j < |tree| && live[j] ==> InLineage(j, 0)
    {
      EveryoneUnderRoot();
    }

    /** On the way up from `n`, every node keeps its head array alone. */
    method KeepHeadsUpward(n: nat)
      requires Structure() && n < |tree| && live[n]
      requires forall j :: 0 <= j < |tree| && live[j] ==> nodes[j].HeadReady()
      modifies this`nodes
      ensures Structure()
      ensures forall j :: 0 <= j < |tree| ==>
                nodes[j] == if live[j] && Below(tree, n, j) then old(nodes)[j].Trimmed(true) else old(nodes)[j]
    {
      var p: int := n;
      while p >= 0
        invariant -1 <= p < |tree| && (p >= 0 ==> live[p] && Below(tree, n, p) && p <= n)
        invariant Structure()
        invariant forall j :: 0 <= j < |tree| ==>
                    nodes[j] == if live[j] && Below(tree, n, j) && j > p then old(nodes)[j].Trimmed(true) else old(nodes)[j]
      {
        nodes := nodes[p := nodes[p].OnlyHead()];
        Upward(tree, live, n, p);
        p := tree[p].parent;
      }
      forall j: nat | j < |tree| && Below(tree, n, j) ensures j <= n {
        BelowSmaller(tree, n, j);
      }
    }

    /** The first part of `zero` and `fill`: the copies that the request makes stale go away. */
    method DropStale(n: nat)
      requires Structure() && n < |tree| && live[n]
      requires AllBare() || forall j :: 0 <= j < |tree| && live[j] ==> nodes[j].HeadReady()
      modifies this`nodes
      ensures Structure()
      ensures n == 0 ==> AllBare()
      ensures OneRequest(old(nodes)) ==> OneRequest(nodes)
      ensures n == 0 ==> forall j :: 0 <= j < |tree| ==> nodes[j].zeroing == old(nodes)[j].zeroing
      ensures n > 0 ==> forall j :: 0 <= j < |tree| ==>
                nodes[j] == if InLineage(j, n) then old(nodes)[j].Trimmed(true) else old(nodes)[j]
    {
      if tree[n].parent == -1 {
        ClearAllArray(n);
        EveryoneUnderRoot();
        ClearAllArrayDescendants(n, false);
      } else {
        ClearAllArrayDescendants(n, true);
        if nodes[n].HasHeadArray() {
          KeepHeadsUpward(n);
        }
        forall j: nat | j < |tree| && Below(tree, n, j) && Under(tree, live, j, n) ensures false {
          BelowSmaller(tree, n, j);
          BelowSmaller(tree, j, n);
        }
      }
    }

    /** The second part: node `n` and everything below it forget their requests. */
    method ForgetRequests(n: nat)
      requires Structure() && n < |tree| && live[n]
      modifies this`nodes
      ensures Structure()
      ensures forall j :: 0 <= j < |tree| ==>
                nodes[j] == if live[j] && Below(tree, j, n) then old(nodes)[j].Quiet() else old(nodes)[j]
    {
      ClearFlags(n);
      ClearFlagsDescendants(n);
    }

    /** `store` is what nodes `before` stood for. */
    ghost predicate Founded(before: seq<Node>, store: Store)
      reads `tree, `live, `children, `nodes, `Repr, Repr
      requires Structure() && |before| == |tree|
    {
      if before[0].arrays == map[] then
        && store == Constants(ConstantCells(tree, live, before))
        && forall j :: 0 <= j < |tree| && live[j] ==> before[j].arrays == map[]
      else
        && before[0].HeadReady() && before[0].head.key.Plain? && before[0].head.key.dtype == before[0].head.dtype
        && var head, mem := before[0].head, before[0].arrays[before[0].head.key].block;
        && mem in Repr && mem.Length == tree[0].size && HeadsSet(tree, live, before, head.key, head.dtype, mem)
        && store == Elements(head.key.place, head.dtype, Logical(conv, head.dtype, tree, live, before, mem[..]))
        && SparesHold(conv, head.dtype, tree, live, before, store.vals, mem, Repr) && AllAtHead(live, before)
    }

    /** A request on the root leaves constants everywhere. */
    lemma RootRequestMade(before: seq<Node>, e: Eager, c: Constant)
      requires Structure() && |before| == |tree| && AllBare() && ValidEager(e) && e.tree == tree && e.live == live
      requires Requested(tree, live, before, nodes, 0, c)
      ensures Store() == SetConstant(conv, e, 0, c)
    {
      RequestedCells(tree, live, before, nodes, 0, c);
      assert ConstantCells(tree, live, nodes) == Constantly(tree[0].size, c);
    }

    /** A request on a view sets its cells in the flat vector, and no copy is left that would contradict it. */
    lemma ViewRequestMade(before: seq<Node>, e: Eager, n: nat, c: Constant)
      requires Structure() && |before| == |tree| && 0 < n < |tree| && live[n]
      requires ValidEager(e) && e.tree == tree && e.live == live
      requires LineageTrimmed(tree, live, before, nodes, n) && Requested(tree, live, before, nodes, n, c)
      requires Founded(before, e.store)
      ensures if before[0].arrays == map[] then AllBare() else nodes[0].arrays != map[] && SetUp() && SparesAgree() && AllAtHead(live, nodes)
      ensures Store() == SetConstant(conv, e, n, c)
    {
      if before[0].arrays == map[] {
        assert forall j :: 0 <= j < |tree| && live[j] ==> nodes[j].arrays == map[];
        RequestedCells(tree, live, before, nodes, n, c);
      } else {
        var head, mem := before[0].head, before[0].arrays[before[0].head.key].block;
        var data := Constantly(tree[n].size, Realize(conv, head.dtype, c));
        TrimmedLineage(conv, tree, live, before, nodes, n, head, e.store.vals, mem, Repr, data);
        assert HeadSet(tree, head.key, head.dtype, mem, 0, nodes[0]);
        RequestedVector(conv, head.dtype, tree, live, before, nodes, mem[..], n, c);
      }
    }

    /** What `zero` and `fill` do to the fields. */
    ghost predicate Recorded(before: seq<Node>, n: nat, c: Constant)
      reads `tree, `live, `children, `nodes, `Repr
      requires Structure() && |before| == |tree| && n < |tree|
    {
      && OneRequest(nodes)
      && (if n == 0 then AllBare() else LineageTrimmed(tree, live, before, nodes, n))
      && Requested(tree, live, before, nodes, n, c)
    }

    /** The common beginning of `zero` and `fill`. */
    method PrepareRequest(n: nat)
      requires Structure() && OneRequest(nodes) && n < |tree| && live[n]
      requires AllBare() || forall j :: 0 <= j < |tree| && live[j] ==> nodes[j].HeadReady()
      modifies this`nodes
      ensures Structure() && OneRequest(nodes)
      ensures if n == 0 then AllBare() else LineageTrimmed(tree, live, old(nodes), nodes, n)
      ensures forall j :: 0 <= j < |tree| && live[j] && Below(tree, j, n) ==> nodes[j].Request() == Nothing
      ensures forall j :: 0 <= j < |tree| && live[j] && !Below(tree, j, n) ==> nodes[j].Request() == old(nodes)[j].Request()
      ensures forall j :: 0 <= j < |tree| && live[j] ==> nodes[j].zeroing == old(nodes)[j].zeroing
    {
      hide Start, Logical, SparesHold, HeadsSet, Spare, WellRooted;
      if n == 0 {
        RootInLineage();
      }
      DropStale(n);
      ghost var dropped := nodes;
      assert forall j :: 0 <= j < |tree| && live[j] && n > 0 ==>
        nodes[j].Flags() == old(nodes)[j].Flags();
      ForgetRequests(n);
      assert forall j :: 0 <= j < |tree| ==> nodes[j].arrays == dropped[j].arrays && nodes[j].head == dropped[j].head;
    }

    method RecordZero(n: nat)
      requires Structure() && OneRequest(nodes) && n < |tree| && live[n]
      requires AllBare() || forall j :: 0 <= j < |tree| && live[j] ==> nodes[j].HeadReady()
      modifies this`nodes
      ensures Structure() && Recorded(old(nodes), n, Zero)
      ensures forall j :: 0 <= j < |tree| && live[j] ==> nodes[j].zeroing == (Below(tree, j, n) || old(nodes)[j].zeroing)
    {
      PrepareRequest(n);
      ghost var prepared := nodes;
      nodes := nodes[n := nodes[n].(zeroLazy := true, zeroing := true)];
      PropagateZeroingFlagDescendants(n, true);
      assert forall j :: 0 <= j < |tree| && j != n ==> nodes[j].Request() == prepared[j].Request();
      assert forall j :: 0 <= j < |tree| ==> nodes[j].arrays == prepared[j].arrays && nodes[j].head == prepared[j].head;
    }

    method RecordFill(n: nat, x: Value)
      requires Structure() && OneRequest(nodes) && n < |tree| && live[n]
      requires AllBare() || forall j :: 0 <= j < |tree| && live[j] ==> nodes[j].HeadReady()
      modifies this`nodes
      ensures Structure() && Recorded(old(nodes), n, Number(x))
      ensures forall j :: 0 <= j < |tree| && live[j] ==> nodes[j].zeroing == (!InLineage(j, n) && old(nodes)[j].zeroing)
    {
      PrepareRequest(n);
      ghost var prepared := nodes;
      PropagateZeroingFlag(n, false);
      nodes := nodes[n := nodes[n].(fillLazy := true, fillValue := x)];
      assert forall j :: 0 <= j < |tree| && j != n ==> nodes[j].Request() == prepared[j].Request();
      assert forall j :: 0 <= j < |tree| ==> nodes[j].arrays == prepared[j].arrays && nodes[j].head == prepared[j].head;
    }

    /** The fields then stand for the flat vector with the cells of `n` set. */
    lemma RequestMade(before: seq<Node>, e: Eager, n: nat, c: Constant)
      requires Structure() && |before| == |tree| && n < |tree| && live[n] && Recorded(before, n, c)
      requires ValidEager(e) && e.tree == tree && e.live == live && Founded(before, e.store)
      requires before[0].Lazy() <==> before[0].arrays == map[]
      ensures if nodes[0].arrays == map[] then AllBare() && nodes[0].Lazy()
              else SetUp() && !nodes[0].Lazy() && SparesAgree() && AllAtHead(live, nodes)
      ensures Store() == SetConstant(conv, e, n, c)
    {
      if n == 0 {
        RootRequestMade(before, e, c);
      } else {
        ViewRequestMade(before, e, n, c);
        assert !Below(tree, 0, n);
        assert nodes[0].Request() == before[0].Request();
      }
    }

    method SetZeroCore(n: nat, ghost e: Eager)
      requires Core() && n < |tree| && live[n] && ValidEager(e) && e.tree == tree && e.live == live && e.store == Store()
      modifies this`nodes
      ensures Core() && Store() == SetConstant(conv, e, n, Zero)
      ensures Requested(tree, live, old(nodes), nodes, n, Zero)
    {
      ghost var before := nodes;
      AllReady();
      assert Founded(before, e.store);
      RecordZero(n);
      RequestMade(before, e, n, Zero);
      ZeroedIsZero(before, e, n);
    }

    method FillCore(n: nat, x: Value, ghost e: Eager)
      requires Core() && n < |tree| && live[n] && ValidEager(e) && e.tree == tree && e.live == live && e.store == Store()
      modifies this`nodes
      ensures Core() && Store() == SetConstant(conv, e, n, Number(x))
      ensures Requested(tree, live, old(nodes), nodes, n, Number(x))
    {
      ghost var before := nodes;
      AllReady();
      assert Founded(before, e.store);
      RecordFill(n, x);
      RequestMade(before, e, n, Number(x));
      FilledBeyond(before, e, n, x);
    }

    lemma ZeroedIsZero(before: seq<Node>, e: Eager, n: nat)
      requires Structure() && |before| == |tree| && n < |tree| && live[n]
      requires ValidEager(e) && e.tree == tree && e.live == live && (nodes[0].arrays != map[] ==> SetUp())
      requires Store() == SetConstant(conv, e, n, Zero)
      requires forall j :: 0 <= j < |tree| && live[j] ==> nodes[j].zeroing == (Below(tree, j, n) || before[j].zeroing)
      requires forall j :: 0 <= j < |tree| && live[j] && before[j].zeroing ==> AllZero(tree, e.store, j)
      ensures ZeroingSound()
    {
      forall j | 0 <= j < |tree| && live[j] && nodes[j].zeroing ensures AllZero(tree, Store(), j) {
        ZeroSpreads(conv, e, n, j);
      }
    }

    lemma FilledBeyond(before: seq<Node>, e: Eager, n: nat, x: Value)
      requires Structure() && |before| == |tree| && n < |tree| && live[n]
      requires ValidEager(e) && e.tree == tree && e.live == live && (nodes[0].arrays != map[] ==> SetUp())
      requires Store() == SetConstant(conv, e, n, Number(x))
      requires forall j :: 0 <= j < |tree| && live[j] ==> nodes[j].zeroing == (!InLineage(j, n) && before[j].zeroing)
      requires forall j :: 0 <= j < |tree| && live[j] && before[j].zeroing ==> AllZero(tree, e.store, j)
      ensures ZeroingSound()
    {
      RootInLineage();
      forall j | 0 <= j < |tree| && live[j] && nodes[j].zeroing ensures AllZero(tree, Store(), j) {
        assert AllZero(tree, e.store, j);
        OverwriteBeyond(tree, live, Constantly(tree[0].size, 0), n, Constantly(tree[n].size, 0), j);
      }
    }

    lemma CoreFacts()
      requires Core()
      ensures Structure() && GoodTree(tree, live) && |live| == |nodes| == |tree|
    {
    }

    /** The reference knows which requests a new one has replaced. */
    lemma PendingReplaced(e: Eager, before: seq<Node>, n: nat, c: Constant)
      requires ValidEager(e) && WellRooted(tree) && |live| == |nodes| == |before| == |tree| && n < |tree| && live[n]
      requires e.tree == tree && e.live == live
      requires Listed(live, before, e.pending) && Requested(tree, live, before, nodes, n, c)
      ensures Listed(live, nodes, Unreplaced(e, n)[n := c])
    {
      hide Below;
    }

    /** `zero()`: the cells of node `n` become zero, lazily. */
    method SetZero(n: nat)
      requires Valid() && n < |tree| && live[n]
      modifies this`nodes, this`pending
      ensures Valid()
      ensures (View(), Done) == Execute(conv, old(View()), EagerVector.Op.SetZero(n))
      // number for number
      ensures SetTo(conv, old(View()).store, n == 0, Start(tree, n), tree[n].size, Zero, View().store)
    {
      ghost var e := View();
      hide *;
      StoreIs();
      Sets(conv, e, n, Zero, EagerVector.Op.SetZero(n));
      SetZeroNow(n);
    }

    method SetZeroNow(n: nat)
      requires Valid() && n < |tree| && live[n]
      modifies this`nodes, this`pending
      ensures Valid()
      ensures (View(), Done) == Execute(conv, old(View()), EagerVector.Op.SetZero(n))
    {
      hide Core, SetConstant;
      ghost var e, before := View(), nodes;
      CoreFacts();
      SetZeroCore(n, e);
      CoreFacts();
      PendingReplaced(e, before, n, Zero);
      pending := Unreplaced(e, n)[n := Zero];
    }

    /** `fill(x)`: the cells of node `n` become `x`, lazily. */
    method Fill(n: nat, x: Value)
      requires Valid() && n < |tree| && live[n]
      modifies this`nodes, this`pending
      ensures Valid()
      ensures (View(), Done) == Execute(conv, old(View()), EagerVector.Op.Fill(n, x))
      // number for number
      ensures SetTo(conv, old(View()).store, n == 0, Start(tree, n), tree[n].size, Number(x), View().store)
    {
      ghost var e := View();
      hide *;
      StoreIs();
      Sets(conv, e, n, Number(x), EagerVector.Op.Fill(n, x));
      FillNow(n, x);
    }

    method FillNow(n: nat, x: Value)
      requires Valid() && n < |tree| && live[n]
      modifies this`nodes, this`pending
      ensures Valid()
      ensures (View(), Done) == Execute(conv, old(View()), EagerVector.Op.Fill(n, x))
    {
      hide Core, SetConstant;
      ghost var e, before := View(), nodes;
      CoreFacts();
      FillCore(n, x, e);
      CoreFacts();
      PendingReplaced(e, before, n, Number(x));
      pending := Unreplaced(e, n)[n := Number(x)];
    }

    lemma AllReady()
      requires Core()
      ensures AllBare() || forall j :: 0 <= j < |tree| && live[j] ==> nodes[j].HeadReady()
    {
      if nodes[0].arrays != map[] {
        forall j | 0 <= j < |tree| && live[j] ensures nodes[j].HeadReady() {
          assert HeadSet(tree, nodes[0].head.key, nodes[0].head.dtype, Mem(), j, nodes[j]);
        }
      }
    }

    /** The constructor's test: does the new view overlap a living sibling? */
    method ClashesWithChild(p: nat, size: nat, offset: nat) returns (clash: bool)
      requires Structure() && p < |tree| && live[p]
      ensures clash <==> exists c :: c in children[p] && RangesClash(tree[c].offset, tree[c].size, offset, size)
    {
      for t := 0 to |children[p]|
        invariant forall s :: 0 <= s < t ==>
                    0 < children[p][s] < |tree| && !RangesClash(tree[children[p][s]].offset, tree[children[p][s]].size, offset, size)
      {
        assert children[p][t] in children[p];
        if RangesClash(tree[children[p][t]].offset, tree[children[p][t]].size, offset, size) {
          return true;
        }
      }
      return false;
    }

    /** The constructor of a view: it gets its array at once if the parent has one. */
    method AddView(p: nat, size: nat, offset: nat)
      requires Core() && p < |tree| && live[p] && offset + size <= tree[p].size && Start(tree, p) == tree[p].offset
      requires forall c :: c in children[p] ==> 0 < c < |tree| && !RangesClash(tree[c].offset, tree[c].size, offset, size)
      modifies `tree, `live, `children, `nodes
      ensures Core() && Store() == old(Store())
      ensures tree == old(tree) + [Link(p, offset, size)] && live == old(live) + [true]
      ensures |nodes| == |old(nodes)| + 1 && nodes[..|old(nodes)|] == old(nodes) && !nodes[|old(nodes)|].Lazy()
    {
      hide Below, Logical, SparesHold, AllAtHead, HeadKey, Spare, WellRooted;
      ghost var tree0, live0, before, store := tree, live, nodes, Store();
      var link, x := Link(p, offset, size), Node(NoHead, false, false, 0.0, false, map[]);
      KinAdded(tree, live, children, p, size, offset);
      assert before[0].arrays != map[] ==>
        HeadSet(tree0, before[0].head.key, before[0].head.dtype, before[0].arrays[before[0].head.key].block, p, before[p]);
      assert Founded(before, store);
      tree, live, children := tree + [link], live + [true], children[p := children[p] + [|tree|]] + [[]];
      nodes := nodes + [x];
      if nodes[p].HasHeadArray() {
        LinkNewest(tree0, live0, before, store);
      } else {
        NodeAdded(conv, FLOAT, tree0, live0, before, link, x, []);
      }
      assert nodes == before + [nodes[|before|]];
      assert live == live0 + [true];
      ZeroingPrefix(tree0, live0, before);
    }

    /** `create_array_from_parent` for the node just added. */
    method LinkNewest(ghost tree0: seq<Link>, ghost live0: seq<bool>, ghost before: seq<Node>, ghost store: Store)
      requires Structure() && |tree| == |tree0| + 1 && tree == tree0 + [tree[|tree0|]] && live == live0 + [true]
      requires |before| == |tree0| && nodes == before + [Node(NoHead, false, false, 0.0, false, map[])]
      requires GoodTree(tree0, live0)
      requires before[0].HeadReady() && before[0].head.key.Plain? && before[0].head.key.dtype == before[0].head.dtype
      requires var head, mem := before[0].head, before[0].arrays[before[0].head.key].block;
               && mem in Repr && mem.Length == tree0[0].size && HeadsSet(tree0, live0, before, head.key, head.dtype, mem)
               && store == Elements(head.key.place, head.dtype, Logical(conv, head.dtype, tree0, live0, before, mem[..]))
               && SparesHold(conv, head.dtype, tree0, live0, before, store.vals, mem, Repr) && AllAtHead(live0, before)
      requires live0[tree[|tree0|].parent]
      modifies `nodes
      ensures |nodes| == |before| + 1 && nodes == before + [nodes[|before|]]
      ensures nodes[0] == before[0] && SetUp() && SparesAgree() && AllAtHead(live, nodes) && Store() == store
      ensures !nodes[|before|].Lazy() && OneRequest([nodes[|before|]]) && !nodes[|before|].zeroing
    {
      var m := |tree| - 1;
      ghost var head, mem, link := nodes[0].head, Mem(), tree[m];
      ghost var p := link.parent;
      assert HeadSet(tree0, head.key, head.dtype, mem, p, before[p]);
      StartPrefix(tree0, [link], p);
      HeadKeyPrefix(tree0, link, head.key, p);
      CreateArrayFromParent(m, head.key, head.dtype, mem);
      assert nodes == before + [nodes[m]];
      assert nodes[m].arrays.Keys == {nodes[m].head.key};
      HeadsAdded(conv, head, tree0, live0, before, link, nodes[m], store.vals, mem, Repr);
      NodeAdded(conv, head.dtype, tree0, live0, before, link, nodes[m], mem[..]);
    }

    lemma ZeroingPrefix(tree0: seq<Link>, live0: seq<bool>, before: seq<Node>)
      requires Structure() && (nodes[0].arrays != map[] ==> SetUp())
      requires WellRooted(tree0) && |tree| == |tree0| + 1 && tree[..|tree0|] == tree0
      requires |live0| == |before| == |tree0| && live[..|tree0|] == live0 && nodes[..|tree0|] == before && !nodes[|tree0|].zeroing
      requires forall j :: 0 <= j < |tree0| && live0[j] && before[j].zeroing ==> AllZero(tree0, Store(), j)
      ensures ZeroingSound()
    {
      assert tree == tree0 + [tree[|tree0|]];
      forall j | 0 <= j < |tree| && live[j] && nodes[j].zeroing ensures AllZero(tree, Store(), j) {
        assert j < |tree0| && live0[j] && before[j].zeroing;
        assert AllZero(tree0, Store(), j);
        StartPrefix(tree0, [tree[|tree0|]], j);
      }
    }

    /** `narrow`: a view of `size` cells of node `p`, starting at its cell `offset`. */
    method Narrow(p: nat, size: nat, offset: nat) returns (r: Outcome)
      requires Valid() && p < |tree| && live[p] && offset + size <= tree[p].size && Start(tree, p) == tree[p].offset
      modifies `tree, `live, `children, `nodes
      ensures Valid()
      ensures (View(), r) == Execute(conv, old(View()), EagerVector.Op.Narrow(p, size, offset))
      // refused exactly if the ranges of the new view and of a living sibling meet; no number changes
      ensures r.Failed? <==>
                exists i :: 0 < i < |old(tree)| == |old(live)| && old(live)[i] && old(tree)[i].parent == p
                  && offset <= old(tree)[i].offset + old(tree)[i].size - 1 && old(tree)[i].offset <= offset + size - 1
      ensures if r.Failed? then View() == old(View())
              else r.Done? && tree == old(tree) + [Link(p, offset, size)] && live == old(live) + [true] && View().store == old(View()).store
    {
      ghost var e := View();
      hide *;
      StoreIs();
      NarrowAllowed(conv, e, p, size, offset);
      Reshapes(conv, e, EagerVector.Op.Narrow(p, size, offset));
      r := NarrowNow(p, size, offset);
      StoreIs();
    }

    method NarrowNow(p: nat, size: nat, offset: nat) returns (r: Outcome)
      requires Valid() && p < |tree| && live[p] && offset + size <= tree[p].size && Start(tree, p) == tree[p].offset
      modifies `tree, `live, `children, `nodes
      ensures Valid()
      ensures (View(), r) == Execute(conv, old(View()), EagerVector.Op.Narrow(p, size, offset))
    {
      hide Below, Logical, Settle, SparesHold, AllAtHead, HeadsSet, HeadSet, Spare, WellRooted, GoodTree;
      var clash := ClashesWithChild(p, size, offset);
      if clash {
        return Failed;
      }
      AddView(p, size, offset);
      r := Done;
    }

    method RemoveView(n: nat)
      requires Core() && 0 < n < |tree| && live[n] && children[n] == [] && GoodTree(tree, live[n := false])
      requires forall i :: 0 < i < |tree| && live[i] ==> tree[i].parent != n
      requires Spared(conv, Store(), tree, live[n := false], nodes, n)
      modifies `live, `children
      ensures Core() && Store() == old(Store()) && live == old(live)[n := false] && nodes == old(nodes)
    {
      hide Spared, Logical, SparesHold, HeadsSet, AllAtHead, AllZero, ConstantCells;
      ghost var live0, store := live, Store();
      var p := tree[n].parent;
      assert n in children[p];
      var kept := Without(children[p], n);
      KinWithout(tree, live, children, n, kept);
      children := children[p := kept];
      live := live[n := false];
      if nodes[0].arrays != map[] {
        ghost var head, mem := nodes[0].head, nodes[0].arrays[nodes[0].head.key].block;
        FewerLive(conv, tree, live0, nodes, n, head, store.vals, mem, Repr);
        NodeDies(conv, store, tree, live0, nodes, n, mem[..]);
      } else {
        NodeDies(conv, store, tree, live0, nodes, n, []);
      }
      assert forall j :: 0 <= j < |tree| && live[j] && nodes[j].zeroing ==> AllZero(tree, store, j);
    }

    lemma SparedIs(n: nat)
      requires Valid() && 0 < n < |tree| && live[n] && n < |View().tree|
      requires n !in View().pending || View().tree[n].size == 0 || Repeated(conv, View(), n)
      requires forall i :: 0 < i < |tree| && live[i] ==> tree[i].parent != n
      ensures GoodTree(tree, live) && GoodTree(tree, live[n := false]) && |nodes| == |tree| && Core() && children[n] == []
      ensures Spared(conv, Store(), tree, live[n := false], nodes, n)
    {
      NoneOrSome(children[n]);
      DestroyKeepsTree(tree, live, n);
      hide Core, Deepest, SameNumber, Repeated, GoodTree;
      if n in pending && tree[n].size > 0 {
        RepeatedExactly(conv, View(), Requests(nodes), n);
      }
    }

    /** The destructor of a view, which takes it off its parent's list. */
    method Destroy(n: nat)
      requires Valid() && 0 < n < |tree| && live[n] && n < |View().tree|
      requires n !in View().pending || View().tree[n].size == 0 || Repeated(conv, View(), n)
      requires forall i :: 0 < i < |tree| && live[i] ==> tree[i].parent != n
      modifies `live, `children, `pending
      ensures Valid()
      ensures (View(), Done) == Execute(conv, old(View()), EagerVector.Op.Destroy(n))
    {
      hide Core, Listed, Spared, Repeated;
      SparedIs(n);
      ListedWithout(live, nodes, pending, n);
      RemoveView(n);
      pending := pending - {n};
    }

    /** `zeroing()` tells the truth: nothing but zeros is to be seen through the node. */
    method Zeroing(n: nat) returns (b: bool)
      requires Valid() && n < |tree| && live[n]
      ensures b ==> AllZero(tree, Store(), n)
    {
      return nodes[n].zeroing;
    }
  }

  lemma OutcomesStep(conv: Convert, e: Eager, ops: seq<Op>, i: nat)
    requires ValidEager(e) && i < |ops| && AllAllowed(conv, e, ops[i..])
    ensures Allowed(conv, e, ops[i])
    ensures var (e', r) := Execute(conv, e, ops[i]);
            && ValidEager(e') && AllAllowed(conv, e', ops[i + 1..])
            && Outcomes(conv, e, ops[i..]) == [r] + Outcomes(conv, e', ops[i + 1..])
  {
    assert ops[i..][0] == ops[i] && ops[i..][1..] == ops[i + 1..];
    ExecuteValid(conv, e, ops[i]);
  }

  lemma FinallyStep(conv: Convert, e: Eager, ops: seq<Op>, i: nat)
    requires ValidEager(e) && i < |ops| && AllAllowed(conv, e, ops[i..])
    ensures Allowed(conv, e, ops[i]) && ValidEager(Execute(conv, e, ops[i]).0) && AllAllowed(conv, Execute(conv, e, ops[i]).0, ops[i + 1..])
    ensures Finally(conv, e, ops[i..]) == Finally(conv, Execute(conv, e, ops[i]).0, ops[i + 1..])
  {
    assert ops[i..][0] == ops[i] && ops[i..][1..] == ops[i + 1..];
    ExecuteValid(conv, e, ops[i]);
  }

  /** In every run, the lazy family tells the caller what the eager vector would, and ends up standing for
      the vector that eager execution ends up with. */
  method RunFamily(conv: Convert, size: nat, ops: seq<Op>) returns (family: Family, outcomes: seq<Outcome>)
    requires Faithful(conv) && AllAllowed(conv, EagerVector.Fresh(size), ops)
    ensures outcomes == Outcomes(conv, EagerVector.Fresh(size), ops)
    ensures family.Valid() && family.View() == Finally(conv, EagerVector.Fresh(size), ops)
  {
    hide *;
    outcomes := [];
    family := new Family(conv, size);
    ghost var expected := Outcomes(conv, EagerVector.Fresh(size), ops);
    ghost var finally := Finally(conv, EagerVector.Fresh(size), ops);
    for i := 0 to |ops|
      invariant family.Valid() && fresh(family) && fresh(family.Repr) && family.conv == conv
      invariant AllAllowed(conv, family.View(), ops[i..])
      invariant outcomes + Outcomes(conv, family.View(), ops[i..]) == expected
      invariant Finally(conv, family.View(), ops[i..]) == finally
    {
      OutcomesStep(conv, family.View(), ops, i);
      FinallyStep(conv, family.View(), ops, i);
      var outcome := RunOne(family, ops[i]);
      outcomes := outcomes + [outcome];
    }
    NothingLeft(conv, family.View(), ops);
  }

  lemma NothingLeft(conv: Convert, e: Eager, ops: seq<Op>)
    requires ValidEager(e)
    ensures AllAllowed(conv, e, ops[|ops|..]) && Finally(conv, e, ops[|ops|..]) == e && Outcomes(conv, e, ops[|ops|..]) == []
  {
  }

  method RunOne(family: Family, op: Op) returns (outcome: Outcome)
    requires family.Valid() && Allowed(family.conv, family.View(), op)
    modifies family, family.Repr
    ensures family.Valid() && fresh(family.Repr - old(family.Repr))
    ensures (family.View(), outcome) == Execute(family.conv, old(family.View()), op)
  {
    hide Below, Start, Logical, Settle, Kin, SparesHold, AllAtHead, HeadsSet, Interval, WellRooted, GoodTree;
    outcome := Done;
    match op {
      case Narrow(p, size, offset) =>
        outcome := family.Narrow(p, size, offset);
      case Get(n, place, d) =>
        var vals := family.Get(n, place, d);
        outcome := Values(vals);
      case CastAndWrite(n, place, d, writeOnly, data) =>
        outcome := family.CastAndWrite(n, place, d, writeOnly, data);
      case SetZero(n) => family.SetZero(n);
      case Fill(n, x) => family.Fill(n, x);
      case Destroy(n) => family.Destroy(n);
    }
  }
}
