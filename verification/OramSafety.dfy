/**
 Safety of the tree ORAM over all access sequences: path slots are empty between accesses, and every
 block is in the stash or at exactly one tree node, which lies on the way to its leaf.
*/
module OramSafety {
  import opened Arith
  import opened Oram

  /** Block b is at depth d of the way to leaf, and nowhere else in the tree. */
  ghost predicate PlacedAt(c: Config, tree: map<nat, Slot>, b: nat, leaf: nat, d: nat) {
    && d <= c.height && PathNode(c, leaf, d) in tree && tree[PathNode(c, leaf, d)] == Block(b)
    && forall n: nat :: n in tree && tree[n] == Block(b) ==> n == PathNode(c, leaf, d)
  }

  ghost predicate Placed(c: Config, s: State, b: nat)
    requires Block(b) in s.positions
  {
    exists d: nat :: PlacedAt(c, s.tree, b, s.positions[Block(b)], d)
  }

  /** The position map knows a leaf for every block, and nothing about empty slots. */
  ghost predicate Mapped(c: Config, positions: map<Slot, nat>) {
    && (forall b: nat :: b < c.blocks ==> Block(b) in positions && c.IsLeaf(positions[Block(b)]))
    && (Empty in positions ==> positions[Empty] == 0)
  }

  predicate LowerEmpty(c: Config, stash: seq<Slot>) {
    forall i :: 0 <= i <= c.height && i < |stash| ==> stash[i] == Empty
  }

  /** What holds between two accesses. */
  ghost predicate Inv(c: Config, s: State) {
    && Shape(c, s) && LowerEmpty(c, s.stash) && Mapped(c, s.positions)
    && forall b: nat :: b < c.blocks ==> InStash(s, b) || Placed(c, s, b)
  }

  // ---- the steps of an access ----

  /** The upper stash holds x. */
  predicate InUpper(c: Config, stash: seq<Slot>, x: Slot) {
    exists j :: c.height < j < |stash| && stash[j] == x
  }

  /** Removing a block that occurs once. */
  lemma RemovedOnce(stash: seq<Slot>, x: Slot, k: nat)
    requires k < |stash| && stash[k] == x && forall i :: 0 <= i < |stash| && i != k ==> stash[i] != x
    ensures Removed(stash, x) == stash[k := Empty]
  {
  }

  /** Bringing back changes only empty path slots, fills them from above, and only adds to the position map. */
  lemma {:induction false} BringBackKeeps(c: Config, stash: seq<Slot>, positions: map<Slot, nat>, leaf: nat, sid: nat)
    requires c.height < sid <= |stash|
    ensures var r := BringBack(c, stash, positions, leaf, sid);
      && (forall i :: c.height <= i < |stash| ==> r.0[i] == stash[i])
      && (forall i :: 0 <= i < c.height ==> r.0[i] == stash[i] || (stash[i] == Empty && InUpper(c, stash, r.0[i])))
      && (forall k :: k in positions ==> k in r.1 && r.1[k] == positions[k])
      && (forall k :: k in r.1 && k !in positions ==> r.1[k] == 0)
    decreases |stash| - sid
  {
    if sid < |stash| {
      var positions1 := Touch(positions, stash[sid]);
      var ssid := Find(stash, Empty, 0, c.height);
      var stash1 := if positions1[stash[sid]] == leaf && ssid < c.height then stash[ssid := stash[sid]] else stash;
      BringBackKeeps(c, stash1, positions1, leaf, sid + 1);
    }
  }

  /** The path nodes hold the lower slots; other nodes are untouched. */
  lemma {:induction false} WriteUpWrites(c: Config, tree: map<nat, Slot>, stash: seq<Slot>, leaf: nat, d: nat)
    requires d <= c.height < |stash| && c.IsLeaf(leaf) && WholeTree(c, tree)
    ensures var t := WriteUp(c, tree, stash, leaf, d);
      && (forall e: nat :: e <= d ==> PathNode(c, leaf, e) in t && t[PathNode(c, leaf, e)] == stash[e])
      && (forall n: nat :: n in t && (forall e: nat :: e <= d ==> n != PathNode(c, leaf, e)) ==>
          n in tree && t[n] == tree[n])
      && (forall n: nat :: n in tree ==> n in t)
    decreases d
  {
    var tree1 := tree[PathNode(c, leaf, d) := stash[d]];
    var t := WriteUp(c, tree, stash, leaf, d);
    if d > 0 {
      WriteUpWrites(c, tree1, stash, leaf, d - 1);
      forall e: nat | e <= d ensures PathNode(c, leaf, e) in t && t[PathNode(c, leaf, e)] == stash[e] {
        if e == d {
          forall f: nat | f <= d - 1 ensures PathNode(c, leaf, f) != PathNode(c, leaf, d) {
            if PathNode(c, leaf, f) == PathNode(c, leaf, d) {
              DepthUnique(c, leaf, leaf, f, d);
            }
          }
          assert PathNode(c, leaf, d) in tree1;
        }
      }
    }
  }

  /** The lower slots after the block has been moved, and what the upper ones hold. */
  ghost predicate Moved(c: Config, s: State, leaf: nat, b: nat, newLeaf: nat, stash: seq<Slot>) {
    && |stash| == c.stashSize && |s.stash| == c.stashSize && c.Valid() && Shape(c, s) && c.IsLeaf(leaf)
    // every other block of the path is in its old slot, and nothing comes in but copies of stashed blocks
    && (forall i :: 0 <= i <= c.height && s.tree[PathNode(c, leaf, i)] != Block(b) ==>
          stash[i] == s.tree[PathNode(c, leaf, i)] || s.tree[PathNode(c, leaf, i)] == Empty)
    && (forall i :: 0 <= i <= c.height ==>
          stash[i] == s.tree[PathNode(c, leaf, i)] || stash[i] == Empty || stash[i] == Block(b) ||
              InUpper(c, s.stash, stash[i]))
    // the upper slots keep what they hold
    && (forall i :: c.height < i < c.stashSize ==>
        stash[i] == s.stash[i] || (s.stash[i] == Empty && stash[i] == Block(b)))
    // the block itself: at one shared depth, or in the upper stash
    && ((exists k: nat :: MovedTo(c, leaf, newLeaf, b, stash, k))
        || (exists i :: c.height < i < c.stashSize && stash[i] == Block(b)))
  }

  ghost predicate MovedTo(c: Config, leaf: nat, newLeaf: nat, b: nat, stash: seq<Slot>, k: nat) {
    && k <= c.height < |stash| && stash[k] == Block(b) && PathNode(c, leaf, k) == PathNode(c, newLeaf, k)
    && forall i :: 0 <= i < |stash| && i != k ==> stash[i] != Block(b)
  }

  /** The stash just before the path is written back. */
  function BeforeWrite(c: Config, stash: seq<Slot>, positions: map<Slot, nat>, leaf: nat, bid: nat,
      newLeaf: nat): (r: Outcome<seq<Slot>>)
    requires |stash| > c.height
    ensures r.Ok? ==> |r.value| == |stash|
  {
    var depth := CommonDepth(newLeaf, leaf, c.height);
    var stash1 := Removed(stash, Block(bid));
    var place := DeepestEmpty(stash1, depth + 1);
    var stash2 := if place > 0 then stash1[place - 1 := Block(bid)] else stash1;
    var stash3 := BringBack(c, stash2, positions, leaf, c.height + 1).0;
    var free := Find(stash3, Empty, c.height + 1, |stash3|);
    if place == 0 && free == |stash3| then Abort(StashOverflow)
    else Ok(if place == 0 then stash3[free := Block(bid)] else stash3)
  }

  lemma MovedWhere(c: Config, s: State, leaf: nat, b: nat, newLeaf: nat, d: nat, positions: map<Slot, nat>)
    requires c.Valid() && Shape(c, s) && LowerEmpty(c, s.stash) && c.IsLeaf(leaf) && c.IsLeaf(newLeaf)
    requires !InStash(s, b) && PlacedAt(c, s.tree, b, leaf, d)
    ensures match BeforeWrite(c, LoadPath(c, s, leaf), positions, leaf, b, newLeaf)
      case Abort(f) => f.StashOverflow? && forall i :: c.height < i < |s.stash| ==> s.stash[i] != Empty
      case Ok(stash) => Moved(c, s, leaf, b, newLeaf, stash)
  {
    hide BringBack, Removed, PathNode, CommonDepth, LoadPath, PlacedAt, Moved, Find, WholeTree;
    var l := LoadPath(c, s, leaf);
    LoadedOnce(c, s, leaf, b, d);
    RemovedOnce(l, Block(b), d);
    var depth := CommonDepth(newLeaf, leaf, c.height);
    var place := DeepestEmpty(l[d := Empty], depth + 1);
    SharedTop(c, leaf, newLeaf, place);
    Rearranged(c, s, leaf, b, newLeaf, d, l, place, positions);
  }

  lemma SharedTop(c: Config, leaf: nat, newLeaf: nat, place: nat)
    requires c.IsLeaf(leaf) && c.IsLeaf(newLeaf) && 0 <= place <= CommonDepth(newLeaf, leaf, c.height) + 1
    ensures place > 0 ==> PathNode(c, leaf, place - 1) == PathNode(c, newLeaf, place - 1)
  {
    PathEnds(c, leaf);
    PathEnds(c, newLeaf);
    CommonDepthCommon(c, newLeaf, leaf, c.height);
  }

  /** The slots after the block has been put at its place and others have been brought back. */
  lemma Rearranged(c: Config, s: State, leaf: nat, b: nat, newLeaf: nat, d: nat, l: seq<Slot>, place: nat,
      positions: map<Slot, nat>)
    requires c.Valid() && Shape(c, s) && LowerEmpty(c, s.stash) && c.IsLeaf(leaf) && d <= c.height &&
      l == LoadPath(c, s, leaf)
    requires l[d] == Block(b) && forall i :: 0 <= i < |l| && i != d ==> l[i] != Block(b)
    requires place <= c.height + 1 && (place > 0 ==>
      l[d := Empty][place - 1] == Empty && PathNode(c, leaf, place - 1) == PathNode(c, newLeaf, place - 1))
    ensures var stash2 := if place > 0 then l[d := Empty][place - 1 := Block(b)] else l[d := Empty];
      var stash3 := BringBack(c, stash2, positions, leaf, c.height + 1).0;
      var free := Find(stash3, Empty, c.height + 1, |stash3|);
      if place == 0 && free == |stash3| then forall i :: c.height < i < |s.stash| ==> s.stash[i] != Empty
      else Moved(c, s, leaf, b, newLeaf, if place == 0 then stash3[free := Block(b)] else stash3)
  {
    hide BringBack, PathNode, LoadPath, Find;
    var stash2 := if place > 0 then l[d := Empty][place - 1 := Block(b)] else l[d := Empty];
    var stash3 := BringBack(c, stash2, positions, leaf, c.height + 1).0;
    var free := Find(stash3, Empty, c.height + 1, |stash3|);
    BringBackKeeps(c, stash2, positions, leaf, c.height + 1);
    SlotsAfter(c, s, leaf, b, newLeaf, d, l, place, stash2, stash3);
    if place == 0 && free < |stash3| {
      assert stash3[free := Block(b)][free] == Block(b);
    }
  }

  lemma SlotsAfter(c: Config, s: State, leaf: nat, b: nat, newLeaf: nat, d: nat, l: seq<Slot>, place: nat,
      stash2: seq<Slot>, stash3: seq<Slot>)
    requires c.Valid() && Shape(c, s) && c.IsLeaf(leaf) && d <= c.height && l == LoadPath(c, s, leaf)
    requires l[d] == Block(b) && forall i :: 0 <= i < |l| && i != d ==> l[i] != Block(b)
    requires place <= c.height + 1 && (place > 0 ==>
      l[d := Empty][place - 1] == Empty && PathNode(c, leaf, place - 1) == PathNode(c, newLeaf, place - 1))
    requires stash2 == if place > 0 then l[d := Empty][place - 1 := Block(b)] else l[d := Empty]
    requires |stash3| == |stash2|
    requires forall i :: c.height <= i < |stash2| ==> stash3[i] == stash2[i]
    requires forall i :: 0 <= i < c.height ==>
      stash3[i] == stash2[i] || (stash2[i] == Empty && InUpper(c, stash2, stash3[i]))
    ensures forall i :: 0 <= i <= c.height && l[i] != Block(b) ==> stash3[i] == l[i] || l[i] == Empty
    ensures forall i :: 0 <= i <= c.height ==>
      stash3[i] == l[i] || stash3[i] == Empty || stash3[i] == Block(b) || InUpper(c, s.stash, stash3[i])
    ensures forall i :: c.height < i < c.stashSize ==> stash3[i] == s.stash[i]
    ensures place > 0 ==> MovedTo(c, leaf, newLeaf, b, stash3, place - 1)
  {
    hide PathNode, LoadPath;
    assert forall i :: c.height < i < c.stashSize ==> stash2[i] == s.stash[i];
    forall i | 0 <= i <= c.height && stash3[i] != stash2[i]
      ensures InUpper(c, s.stash, stash3[i]) && stash3[i] != Block(b)
    {
      var j :| c.height < j < |stash2| && stash2[j] == stash3[i];
      assert s.stash[j] == stash3[i];
    }
  }

  /** The loaded path holds the block once. */
  lemma LoadedOnce(c: Config, s: State, leaf: nat, b: nat, d: nat)
    requires c.Valid() && Shape(c, s) && c.IsLeaf(leaf) && !InStash(s, b) && PlacedAt(c, s.tree, b, leaf, d)
    ensures var l := LoadPath(c, s, leaf);
      d <= c.height < |l| && l[d] == Block(b) && forall i :: 0 <= i < |l| && i != d ==> l[i] != Block(b)
  {
    var l := LoadPath(c, s, leaf);
    forall i | 0 <= i < |l| && i != d ensures l[i] != Block(b) {
      if i <= c.height && l[i] == Block(b) {
        DepthUnique(c, leaf, leaf, i, d);
      }
    }
  }

  /** The state after the path has been written back. */
  ghost predicate Written(c: Config, s: State, leaf: nat, stash: seq<Slot>, e: State) {
    && |stash| == c.stashSize && c.height < |stash| && Shape(c, s) && c.IsLeaf(leaf)
    && e.stash == Cleared(c, stash) && e.tree == WriteUp(c, s.tree, stash, leaf, c.height)
  }

  lemma WrittenShape(c: Config, s: State, leaf: nat, stash: seq<Slot>, e: State)
    requires Written(c, s, leaf, stash, e) && c.IsLeaf(leaf)
    ensures Shape(c, e)
  {
  }

  /** The block that was asked for. */
  lemma BlockMoved(c: Config, s: State, leaf: nat, b: nat, newLeaf: nat, stash: seq<Slot>, e: State, d: nat)
    requires Moved(c, s, leaf, b, newLeaf, stash) && Written(c, s, leaf, stash, e) && PlacedAt(c, s.tree, b, leaf, d)
    requires c.IsLeaf(newLeaf)
    ensures InStash(e, b) || exists k: nat :: PlacedAt(c, e.tree, b, newLeaf, k)
  {
    WriteUpWrites(c, s.tree, stash, leaf, c.height);
    hide WriteUp, PathNode;
    if i :| c.height < i < c.stashSize && stash[i] == Block(b) {
      assert e.stash[i] == Block(b);
    } else {
      var k: nat :| MovedTo(c, leaf, newLeaf, b, stash, k);
      forall n: nat | n in e.tree && e.tree[n] == Block(b) ensures n == PathNode(c, newLeaf, k) {
        if f: nat :| f <= c.height && n == PathNode(c, leaf, f) {
          assert stash[f] == Block(b);
        }
      }
      assert PlacedAt(c, e.tree, b, newLeaf, k);
    }
  }

  /** A block outside the stash that was not asked for stays at its one node. */
  lemma OtherStays(c: Config, s: State, leaf: nat, b: nat, newLeaf: nat, stash: seq<Slot>, e: State, x: nat,
      home: nat, d: nat)
    requires Moved(c, s, leaf, b, newLeaf, stash) && Written(c, s, leaf, stash, e)
    requires x != b && !InStash(s, x) && c.IsLeaf(home) && PlacedAt(c, s.tree, x, home, d)
    ensures PlacedAt(c, e.tree, x, home, d)
  {
    WriteUpWrites(c, s.tree, stash, leaf, c.height);
    var n := PathNode(c, home, d);
    if n == PathNode(c, leaf, d) {
      assert stash[d] == Block(x);
    } else {
      forall f: nat | f <= c.height ensures n != PathNode(c, leaf, f) {
        if n == PathNode(c, leaf, f) {
          DepthUnique(c, home, leaf, d, f);
        }
      }
    }
    hide WriteUp, PathNode;
    forall m: nat | m in e.tree && e.tree[m] == Block(x) ensures m == n {
      if f: nat :| f <= c.height && m == PathNode(c, leaf, f) {
        assert stash[f] == Block(x);
        assert stash[f] == s.tree[m];
      }
    }
  }

  lemma StashedStays(c: Config, s: State, leaf: nat, b: nat, newLeaf: nat, stash: seq<Slot>, e: State, x: nat)
    requires Moved(c, s, leaf, b, newLeaf, stash) && Written(c, s, leaf, stash, e) && LowerEmpty(c, s.stash) &&
      InStash(s, x)
    ensures InStash(e, x)
  {
    var i :| 0 <= i < |s.stash| && s.stash[i] == Block(x);
    assert e.stash[i] == Block(x);
  }

  // ---- accesses and runs ----

  /** An access that misses. */
  lemma MissKeeps(c: Config, s: State, b: nat, newLeaf: nat)
    requires c.Valid() && Inv(c, s) && b < c.blocks && !InStash(s, b) && c.IsLeaf(newLeaf)
    ensures var leaf := s.positions[Block(b)];
      c.IsLeaf(leaf) &&
      match WriteBack(c, State(LoadPath(c, s, leaf), s.positions[Block(b) := newLeaf], s.tree), leaf, b, newLeaf)
      case Abort(f) => f.StashOverflow? && forall i :: c.height < i < |s.stash| ==> s.stash[i] != Empty
      case Ok(e) => Inv(c, e) && e.positions[Block(b)] == newLeaf && KeepsOthers(c, s, e, b)
  {
    var leaf := s.positions[Block(b)];
    var positions := s.positions[Block(b) := newLeaf];
    var d: nat :| PlacedAt(c, s.tree, b, leaf, d);
    MovedWhere(c, s, leaf, b, newLeaf, d, positions);
    var loaded := State(LoadPath(c, s, leaf), positions, s.tree);
    var r := WriteBack(c, loaded, leaf, b, newLeaf);
    SplitWriteBack(c, loaded, leaf, b, newLeaf);
    if r.Ok? {
      var stash := BeforeWrite(c, loaded.stash, positions, leaf, b, newLeaf).value;
      assert Written(c, s, leaf, stash, r.value);
      hide WriteBack, BeforeWrite, LoadPath;
      AfterMiss(c, s, leaf, b, newLeaf, stash, r.value, d);
    }
  }

  /** Only the block that was asked for gets a new leaf. */
  ghost predicate KeepsOthers(c: Config, s: State, e: State, b: nat) {
    forall x: nat :: x < c.blocks && x != b && Block(x) in s.positions ==>
      Block(x) in e.positions && e.positions[Block(x)] == s.positions[Block(x)] && (InStash(s, x) <==> InStash(e, x))
  }

  lemma SplitWriteBack(c: Config, s: State, leaf: nat, b: nat, newLeaf: nat)
    requires c.Valid() && Shape(c, s) && c.IsLeaf(leaf)
    ensures var r := WriteBack(c, s, leaf, b, newLeaf); var w := BeforeWrite(c, s.stash, s.positions, leaf, b, newLeaf);
      && r.Ok? == w.Ok? && (r.Abort? ==> r.fault == w.fault)
      && (r.Ok? ==>
           && r.value.stash == Cleared(c, w.value) && r.value.tree == WriteUp(c, s.tree, w.value, leaf, c.height)
           && (forall k :: k in s.positions ==> k in r.value.positions && r.value.positions[k] == s.positions[k])
           && (forall k :: k in r.value.positions && k !in s.positions ==> r.value.positions[k] == 0))
  {
    hide BringBack, Removed, WriteUp, PathNode, DeepestEmpty, CommonDepth, Find, WholeTree;
    var stash1 := Removed(s.stash, Block(b));
    var place := DeepestEmpty(stash1, CommonDepth(newLeaf, leaf, c.height) + 1);
    var stash2 := if place > 0 then stash1[place - 1 := Block(b)] else stash1;
    BringBackKeeps(c, stash2, s.positions, leaf, c.height + 1);
  }

  lemma AfterMiss(c: Config, s: State, leaf: nat, b: nat, newLeaf: nat, stash: seq<Slot>, e: State, d: nat)
    requires c.Valid() && Inv(c, s) && b < c.blocks && !InStash(s, b) && c.IsLeaf(newLeaf) &&
      leaf == s.positions[Block(b)]
    requires PlacedAt(c, s.tree, b, leaf, d) && Moved(c, s, leaf, b, newLeaf, stash) && Written(c, s, leaf, stash, e)
    requires forall k :: k in s.positions[Block(b) := newLeaf] ==>
      k in e.positions && e.positions[k] == s.positions[Block(b) := newLeaf][k]
    requires forall k :: k in e.positions && k !in s.positions[Block(b) := newLeaf] ==> e.positions[k] == 0
    ensures Inv(c, e) && e.positions[Block(b)] == newLeaf && KeepsOthers(c, s, e, b)
  {
    WrittenShape(c, s, leaf, stash, e);
    NewPositions(c, s.positions, b, newLeaf, e.positions);
    hide PathNode, WriteUp, Moved, Mapped, PlacedAt, LowerEmpty, Shape;
    forall x: nat | x < c.blocks ensures InStash(e, x) || Placed(c, e, x) {
      WhereNow(c, s, leaf, b, newLeaf, stash, e, d, x);
    }
    forall x: nat | x < c.blocks && x != b ensures InStash(s, x) <==> InStash(e, x) {
      StashSame(c, s, leaf, b, newLeaf, stash, e, x);
    }
  }

  lemma NewPositions(c: Config, before: map<Slot, nat>, b: nat, newLeaf: nat, positions: map<Slot, nat>)
    requires Mapped(c, before) && b < c.blocks && c.IsLeaf(newLeaf)
    requires forall k :: k in before[Block(b) := newLeaf] ==>
      k in positions && positions[k] == before[Block(b) := newLeaf][k]
    requires forall k :: k in positions && k !in before[Block(b) := newLeaf] ==> positions[k] == 0
    ensures Mapped(c, positions) && positions[Block(b)] == newLeaf
    ensures forall x: nat :: x < c.blocks && x != b ==> Block(x) in positions && positions[Block(x)] == before[Block(x)]
  {
    assert Block(b) in before[Block(b) := newLeaf];
    forall x: nat | x < c.blocks && x != b ensures Block(x) in positions && positions[Block(x)] == before[Block(x)] {
      assert Block(x) in before[Block(b) := newLeaf];
    }
  }

  /** Where block x is to be found after the path has been written back. */
  lemma WhereNow(c: Config, s: State, leaf: nat, b: nat, newLeaf: nat, stash: seq<Slot>, e: State, d: nat, x: nat)
    requires c.Valid() && Inv(c, s) && b < c.blocks && x < c.blocks && !InStash(s, b) && c.IsLeaf(newLeaf)
    requires PlacedAt(c, s.tree, b, leaf, d) && Moved(c, s, leaf, b, newLeaf, stash) && Written(c, s, leaf, stash, e)
    requires Block(b) in e.positions && e.positions[Block(b)] == newLeaf
    requires x != b ==> Block(x) in e.positions && e.positions[Block(x)] == s.positions[Block(x)]
    ensures InStash(e, x) || Placed(c, e, x)
  {
    hide PathNode, WriteUp, Moved, Written, PlacedAt, Shape;
    if x == b {
      BlockMoved(c, s, leaf, b, newLeaf, stash, e, d);
    } else if InStash(s, x) {
      StashedStays(c, s, leaf, b, newLeaf, stash, e, x);
    } else {
      var k: nat :| PlacedAt(c, s.tree, x, s.positions[Block(x)], k);
      OtherStays(c, s, leaf, b, newLeaf, stash, e, x, s.positions[Block(x)], k);
    }
  }

  lemma StashSame(c: Config, s: State, leaf: nat, b: nat, newLeaf: nat, stash: seq<Slot>, e: State, x: nat)
    requires Moved(c, s, leaf, b, newLeaf, stash) && Written(c, s, leaf, stash, e) && LowerEmpty(c, s.stash) && x != b
    ensures InStash(s, x) <==> InStash(e, x)
  {
    if InStash(s, x) {
      StashedStays(c, s, leaf, b, newLeaf, stash, e, x);
    }
    if i :| 0 <= i < |e.stash| && e.stash[i] == Block(x) {
      assert s.stash[i] == Block(x);
    }
  }

  /**
   One access keeps the invariant, moves no other block to another leaf, and takes no block out of the
   stash.  It aborts for an address without block, or when every upper stash slot is taken.
  */
  lemma AccessKeeps(c: Config, s: State, addr: nat, newLeaf: nat)
    requires c.Valid() && Inv(c, s) && c.IsLeaf(newLeaf)
    ensures match Access(c, s, addr, newLeaf)
      case Abort(f) =>
        || (f.NoSuchBlock? && BlockOf(c, addr) >= c.blocks)
        || (f.StashOverflow? && forall i :: c.height < i < |s.stash| ==> s.stash[i] != Empty)
      case Ok(e) =>
        && Inv(c, e) && KeepsOthers(c, s, e, BlockOf(c, addr))
        && (InStash(s, BlockOf(c, addr)) ==> e == s)
        && (!InStash(s, BlockOf(c, addr)) ==> e.positions[Block(BlockOf(c, addr))] == newLeaf)
  {
    var b := BlockOf(c, addr);
    if b < c.blocks && !InStash(s, b) {
      MissKeeps(c, s, b, newLeaf);
    }
  }

  datatype Request = Request(addr: nat, newLeaf: nat)

  predicate AllLeaves(c: Config, requests: seq<Request>) {
    forall i :: 0 <= i < |requests| ==> c.IsLeaf(requests[i].newLeaf)
  }

  lemma RestLeaves(c: Config, requests: seq<Request>)
    requires AllLeaves(c, requests) && requests != []
    ensures AllLeaves(c, requests[1..]) && c.IsLeaf(requests[0].newLeaf)
  {
  }

  function Run(c: Config, s: State, requests: seq<Request>): (r: Outcome<State>)
    requires c.Valid() && Shape(c, s) && AllLeaves(c, requests)
    ensures r.Ok? ==> Shape(c, r.value)
    decreases |requests|
  {
    if requests == [] then Ok(s)
    else
      RestLeaves(c, requests);
      match Access(c, s, requests[0].addr, requests[0].newLeaf)
      case Abort(f) => Abort(f)
      case Ok(e) => Run(c, e, requests[1..])
  }

  /** Every run keeps the invariant; a block that is in the stash stays there for good. */
  lemma {:induction false} RunKeeps(c: Config, s: State, requests: seq<Request>)
    requires c.Valid() && Inv(c, s) && AllLeaves(c, requests)
    ensures match Run(c, s, requests)
      case Abort(f) => !f.NotALeaf?
      case Ok(e) => Inv(c, e) && forall b: nat :: b < c.blocks && InStash(s, b) ==> InStash(e, b)
    decreases |requests|
  {
    if requests != [] {
      var r := requests[0];
      RestLeaves(c, requests);
      AccessKeeps(c, s, r.addr, r.newLeaf);
      var o := Access(c, s, r.addr, r.newLeaf);
      hide Access, Inv, AllLeaves, KeepsOthers;
      if o.Ok? {
        RunKeeps(c, o.value, requests[1..]);
        StaysStashed(c, s, o.value, BlockOf(c, r.addr));
      }
    }
  }

  lemma StaysStashed(c: Config, s: State, e: State, b: nat)
    requires Inv(c, s) && KeepsOthers(c, s, e, b) && (InStash(s, b) ==> e == s)
    ensures forall x: nat :: x < c.blocks && InStash(s, x) ==> InStash(e, x)
  {
  }

  // ---- the initial state ----

  /** The state that init builds: the blocks in order, one in each leaf. */
  ghost predicate Initial(c: Config, s: State) {
    && Shape(c, s) && (forall i :: 0 <= i < |s.stash| ==> s.stash[i] == Empty)
    && (forall n: nat :: 1 <= n <= c.Nodes() ==> s.tree[n] == if n < c.Leaves() then Empty else Block(n - c.Leaves()))
    && (forall k :: k in s.positions <==> k.Block? && k.id < c.Leaves())
    && (forall b: nat :: b < c.Leaves() ==> s.positions[Block(b)] == c.Leaves() + b)
  }

  /** All blocks are placed at the start exactly if their number is a power of two. */
  lemma InitialInv(c: Config, s: State)
    requires c.Valid() && Initial(c, s)
    ensures Inv(c, s) <==> c.blocks == Pow2(c.height)
  {
    if c.blocks == Pow2(c.height) {
      forall b: nat | b < c.blocks ensures Placed(c, s, b) {
        PathEnds(c, c.Leaves() + b);
        assert PlacedAt(c, s.tree, b, c.Leaves() + b, c.height);
      }
    } else {
      assert Block(Pow2(c.height)) !in s.positions;
      assert Pow2(c.height) < c.blocks;
    }
  }

  /** For any other number of blocks the first access to the first block too many aborts. */
  lemma UnplacedBlockAborts(c: Config, s: State, addr: nat, newLeaf: nat)
    requires c.Valid() && Initial(c, s) && c.IsLeaf(newLeaf) && Pow2(c.height) <= BlockOf(c, addr) < c.blocks
    ensures Access(c, s, addr, newLeaf) == Abort(NotALeaf)
  {
    assert Block(BlockOf(c, addr)) !in s.positions;
  }

  /** From the initial state no run loads a path that does not end in a leaf. */
  lemma SafeFromStart(c: Config, s: State, requests: seq<Request>)
    requires c.Valid() && Initial(c, s) && c.blocks == Pow2(c.height)
    requires AllLeaves(c, requests)
    ensures Inv(c, s)
    ensures match Run(c, s, requests)
      case Abort(f) => !f.NotALeaf?
      case Ok(e) => Inv(c, e)
  {
    InitialInv(c, s);
    RunKeeps(c, s, requests);
  }
}
