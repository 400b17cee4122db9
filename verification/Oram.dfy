/**
 The tree ORAM: a binary tree of buckets, a position map and a stash.  An access to a block outside
 the stash loads the path to the block's leaf into the lower stash slots, moves the block to a new
 leaf and writes the path back.
*/
module Oram {
  import opened Arith

  /** A bucket, a stash slot, or a key of the position map: all ones in the source stands for no block. */
  datatype Slot = Empty | Block(id: nat)

  datatype Fault = NoSuchBlock | NotALeaf | StashOverflow

  datatype Outcome<+T> = Ok(value: T) | Abort(fault: Fault)

  datatype Config = Config(blocks: nat, height: nat, stashSize: nat, lineSize: nat) {
    function Leaves(): nat { Pow2(height) }
    function Nodes(): nat { 2 * Leaves() - 1 }
    predicate IsLeaf(n: nat) { Leaves() <= n <= Nodes() }

    /** The height is the logarithm of the block count, rounded down; some stash lies above the path slots. */
    predicate Valid() { Pow2(height) <= blocks < Pow2(height + 1) && stashSize > height + 1 && lineSize > 0 }
  }

  datatype State = State(stash: seq<Slot>, positions: map<Slot, nat>, tree: map<nat, Slot>)

  ghost predicate Shape(c: Config, s: State) {
    |s.stash| == c.stashSize && WholeTree(c, s.tree)
  }

  ghost predicate WholeTree(c: Config, tree: map<nat, Slot>) {
    forall n: nat :: n in tree <==> 1 <= n <= c.Nodes()
  }

  // ---- paths ----

  /** The node at depth d on the way from the root to a leaf. */
  function PathNode(c: Config, leaf: nat, d: nat): (n: nat)
    requires d <= c.height
    ensures c.IsLeaf(leaf) ==> Pow2(d) <= n < 2 * Pow2(d) && 1 <= n <= c.Nodes()
  {
    Division(leaf, Pow2(c.height - d));
    MulOrder(leaf / Pow2(c.height - d), -1, Pow2(c.height - d));
    if c.IsLeaf(leaf) then
      Pow2Add(d, c.height - d);
      DepthRange(leaf, Pow2(d), Pow2(c.height - d));
      MulOrder(1, Pow2(c.height - d), Pow2(d));
      leaf / Pow2(c.height - d)
    else leaf / Pow2(c.height - d)
  }

  lemma DepthRange(leaf: nat, p: nat, q: nat)
    requires p > 0 && q > 0 && p * q <= leaf < 2 * (p * q)
    ensures p <= leaf / q < 2 * p
  {
    Division(leaf, q);
    MulOrder(leaf / q, p, q);
    MulOrder(2 * p, leaf / q, q);
    assert 2 * p * q == 2 * (p * q);
  }

  /** Nodes of one path at different depths are different. */
  lemma DepthUnique(c: Config, leaf: nat, other: nat, d: nat, e: nat)
    requires c.IsLeaf(leaf) && c.IsLeaf(other) && d <= c.height && e <= c.height
    requires PathNode(c, leaf, d) == PathNode(c, other, e)
    ensures d == e
  {
    DeeperIsLarger(d, e);
    DeeperIsLarger(e, d);
  }

  lemma DeeperIsLarger(d: nat, e: nat)
    ensures d < e ==> 2 * Pow2(d) <= Pow2(e)
  {
    if d < e {
      Pow2Add(d + 1, e - d - 1);
      MulOrder(1, Pow2(e - d - 1), Pow2(d + 1));
    }
  }

  /** One step up is one halving. */
  lemma StepUp(c: Config, leaf: nat, d: nat)
    requires d < c.height
    ensures PathNode(c, leaf, d) == PathNode(c, leaf, d + 1) / 2
  {
    var p := Pow2(c.height - d - 1);
    assert Pow2(c.height - d) == 2 * p;
    Division(leaf, p);
    Division(leaf / p, 2);
    HalveTwice(leaf, p);
  }

  lemma HalveTwice(x: nat, p: nat)
    requires p > 0
    ensures x / (2 * p) == x / p / 2
  {
    var q, r := x / p, x % p;
    Division(x, p);
    assert q / 2 * (2 * p) == (q / 2 * 2) * p;
    if q % 2 == 1 {
      assert q * p == (q / 2 * 2) * p + p;
    }
    QuotientUnique(x, 2 * p, q / 2);
  }

  lemma PathEnds(c: Config, leaf: nat)
    requires c.IsLeaf(leaf)
    ensures PathNode(c, leaf, c.height) == leaf && PathNode(c, leaf, 0) == 1
  {
    QuotientUnique(leaf, 1, leaf);
    assert Pow2(0) == 1;
  }

  // ---- one access ----

  /** The path to a leaf, in the lower stash slots. */
  function LoadPath(c: Config, s: State, leaf: nat): (r: seq<Slot>)
    requires c.Valid() && Shape(c, s) && c.IsLeaf(leaf)
    ensures |r| == |s.stash|
    ensures forall i :: 0 <= i < |r| ==> r[i] == if i <= c.height then s.tree[PathNode(c, leaf, i)] else s.stash[i]
  {
    seq(|s.stash|, i requires 0 <= i < |s.stash| => if i <= c.height then s.tree[PathNode(c, leaf, i)] else s.stash[i])
  }

  /** The depth at which the ways to two nodes of depth d part. */
  function CommonDepth(a: nat, b: nat, d: nat): (r: nat)
    ensures r <= d
  {
    if a == b || d == 0 then d else CommonDepth(a / 2, b / 2, d - 1)
  }

  lemma {:induction false} CommonDepthCommon(c: Config, a: nat, b: nat, d: nat)
    requires c.IsLeaf(a) && c.IsLeaf(b) && d <= c.height
    ensures var r := CommonDepth(PathNode(c, a, d), PathNode(c, b, d), d);
      && forall e: nat :: e <= r ==> PathNode(c, a, e) == PathNode(c, b, e)
    ensures var r := CommonDepth(PathNode(c, a, d), PathNode(c, b, d), d);
      forall e: nat :: r < e <= d ==> PathNode(c, a, e) != PathNode(c, b, e)
  {
    hide PathNode;
    if PathNode(c, a, d) == PathNode(c, b, d) {
      SharedAbove(c, a, b, d);
    } else if d == 0 {
      PathEnds(c, a);
      PathEnds(c, b);
      assert false;
    } else {
      StepUp(c, a, d - 1);
      StepUp(c, b, d - 1);
      CommonDepthCommon(c, a, b, d - 1);
    }
  }

  lemma {:induction false} SharedAbove(c: Config, a: nat, b: nat, d: nat)
    requires d <= c.height && PathNode(c, a, d) == PathNode(c, b, d)
    ensures forall e: nat :: e <= d ==> PathNode(c, a, e) == PathNode(c, b, e)
  {
    if d > 0 {
      StepUp(c, a, d - 1);
      StepUp(c, b, d - 1);
      SharedAbove(c, a, b, d - 1);
    }
  }

  /** The first slot from i on that holds x, or the end. */
  function Find(stash: seq<Slot>, x: Slot, i: nat, end: nat): (n: nat)
    requires i <= end <= |stash|
    ensures i <= n <= end && (n < end ==> stash[n] == x)
    ensures forall j :: i <= j < n ==> stash[j] != x
    decreases end - i
  {
    if i == end || stash[i] == x then i else Find(stash, x, i + 1, end)
  }

  /** The stash without the first occurrence of x. */
  function Removed(stash: seq<Slot>, x: Slot): (r: seq<Slot>)
    ensures |r| == |stash|
  {
    var n := Find(stash, x, 0, |stash|);
    if n < |stash| then stash[n := Empty] else stash
  }

  /** The deepest empty slot at depth below n, counted from one; zero if there is none. */
  function DeepestEmpty(stash: seq<Slot>, n: nat): (r: nat)
    requires n <= |stash|
    ensures r <= n && (r > 0 ==> stash[r - 1] == Empty) && forall j :: r <= j < n ==> stash[j] != Empty
  {
    if n == 0 || stash[n - 1] == Empty then n else DeepestEmpty(stash, n - 1)
  }

  /** Looking a slot up in the position map creates the entry. */
  function Touch(positions: map<Slot, nat>, x: Slot): map<Slot, nat> {
    if x in positions then positions else positions[x := 0]
  }

  function Lookup(positions: map<Slot, nat>, x: Slot): nat { if x in positions then positions[x] else 0 }

  /** Copies blocks of the upper stash that belong to the leaf into empty path slots; they also stay where they are. */
  function BringBack(c: Config, stash: seq<Slot>, positions: map<Slot, nat>, leaf: nat,
      sid: nat): (r: (seq<Slot>, map<Slot, nat>))
    requires c.height < sid <= |stash|
    ensures |r.0| == |stash|
    decreases |stash| - sid
  {
    if sid == |stash| then (stash, positions)
    else
      var positions1 := Touch(positions, stash[sid]);
      var ssid := Find(stash, Empty, 0, c.height);
      var stash1 := if positions1[stash[sid]] == leaf && ssid < c.height then stash[ssid := stash[sid]] else stash;
      BringBack(c, stash1, positions1, leaf, sid + 1)
  }

  /** The tree after the lower slots have been written to the path, depth d and above. */
  function WriteUp(c: Config, tree: map<nat, Slot>, stash: seq<Slot>, leaf: nat, d: nat): (r: map<nat, Slot>)
    requires d <= c.height < |stash| && c.IsLeaf(leaf) && WholeTree(c, tree)
    ensures WholeTree(c, r)
    decreases d
  {
    var tree1 := tree[PathNode(c, leaf, d) := stash[d]];
    if d == 0 then tree1 else WriteUp(c, tree1, stash, leaf, d - 1)
  }

  function Cleared(c: Config, stash: seq<Slot>): (r: seq<Slot>)
    ensures |r| == |stash| && forall i :: 0 <= i < |r| ==> r[i] == if i <= c.height then Empty else stash[i]
  {
    seq(|stash|, i requires 0 <= i < |stash| => if i <= c.height then Empty else stash[i])
  }

  /** Moves the block to its new leaf and writes the path to the old leaf back. */
  function WriteBack(c: Config, s: State, leaf: nat, bid: nat, newLeaf: nat): (r: Outcome<State>)
    requires c.Valid() && Shape(c, s) && c.IsLeaf(leaf)
    ensures r.Ok? ==> Shape(c, r.value)
  {
    var depth := CommonDepth(newLeaf, leaf, c.height);
    var stash1 := Removed(s.stash, Block(bid));
    var place := DeepestEmpty(stash1, depth + 1);
    var stash2 := if place > 0 then stash1[place - 1 := Block(bid)] else stash1;
    var (stash3, positions) := BringBack(c, stash2, s.positions, leaf, c.height + 1);
    var free := Find(stash3, Empty, c.height + 1, |stash3|);
    if place == 0 && free == |stash3| then Abort(StashOverflow)
    else
      var stash4 := if place == 0 then stash3[free := Block(bid)] else stash3;
      Ok(State(Cleared(c, stash4), positions, WriteUp(c, s.tree, stash4, leaf, c.height)))
  }

  predicate InStash(s: State, b: nat) { Block(b) in s.stash }

  /** The block an address belongs to, in 64-bit arithmetic. */
  function BlockOf(c: Config, addr: nat): nat
    requires c.Valid()
  {
    ((addr - 0x8000_0000) % 0x1_0000_0000_0000_0000) / c.lineSize
  }

  /** One access; the new leaf is the random choice. */
  function Access(c: Config, s: State, addr: nat, newLeaf: nat): (r: Outcome<State>)
    requires c.Valid() && Shape(c, s) && c.IsLeaf(newLeaf)
    ensures r.Ok? ==> Shape(c, r.value)
  {
    var b := BlockOf(c, addr);
    if b >= c.blocks then Abort(NoSuchBlock)
    else if InStash(s, b) then Ok(s)
    else
      var leaf := Lookup(s.positions, Block(b));
      if !c.IsLeaf(leaf) then Abort(NotALeaf)
      else
        WriteBack(c, State(LoadPath(c, s, leaf), s.positions[Block(b) := newLeaf], s.tree), leaf, b, newLeaf)
  }
}
