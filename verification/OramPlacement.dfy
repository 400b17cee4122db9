/**
 Where an access leaves the blocks, said of the tree and the stash before and after it alone: the block that was
 asked for is as deep on both ways as it can be, and stashed blocks of the path come back while there is room.
*/
module OramPlacement {
  import opened Arith
  import opened Oram
  import opened OramSafety

  /** The ways to the two leaves have the node at depth d in common. */
  predicate Shared(c: Config, leaf: nat, newLeaf: nat, d: nat) {
    d <= c.height && PathNode(c, leaf, d) == PathNode(c, newLeaf, d)
  }

  /** The node at depth d of the way to leaf holds another block than b, before and after. */
  ghost predicate Taken(c: Config, before: map<nat, Slot>, after: map<nat, Slot>, leaf: nat, d: nat, b: nat) {
    d <= c.height && var n := PathNode(c, leaf, d);
      n in before && n in after && after[n] == before[n] && before[n].Block? && before[n] != Block(b)
  }

  /** The block is at depth k of both ways, and all deeper nodes they share are taken. */
  ghost predicate Deepest(c: Config, before: map<nat, Slot>, after: map<nat, Slot>, leaf: nat, newLeaf: nat, b: nat,
      k: nat)
  {
    && Shared(c, leaf, newLeaf, k) && PlacedAt(c, after, b, newLeaf, k)
    && forall j: nat :: k < j && Shared(c, leaf, newLeaf, j) ==> Taken(c, before, after, leaf, j, b)
  }

  /** The block at x in the upper stash, before, belongs to the leaf. */
  predicate StashedFor(c: Config, s: State, x: Slot, leaf: nat) {
    InUpper(c, s.stash, x) && x in s.positions && s.positions[x] == leaf
  }

  // ---- bringing stashed blocks back ----

  /** Slot i below the height holds x. */
  predicate InLower(c: Config, stash: seq<Slot>, x: Slot) {
    exists i :: 0 <= i < c.height && i < |stash| && stash[i] == x
  }

  predicate From(c: Config, stash: seq<Slot>, positions: map<Slot, nat>, leaf: nat, sid: nat, x: Slot) {
    exists j :: sid <= j < |stash| && stash[j] == x && x in positions && positions[x] == leaf
  }

  /** What comes back belongs to the leaf, and what does not come back finds no room. */
  lemma {:induction false} BringBackFills(c: Config, stash: seq<Slot>, positions: map<Slot, nat>, leaf: nat, sid: nat)
    requires c.height < sid <= |stash| && leaf > 0 && (Empty in positions ==> positions[Empty] == 0)
    ensures var r := BringBack(c, stash, positions, leaf, sid).0;
      && (forall i :: 0 <= i < c.height ==> r[i] == stash[i] || From(c, stash, positions, leaf, sid, r[i]))
      && (forall x :: From(c, stash, positions, leaf, sid, x) ==> InLower(c, r, x) || Full(c, r))
    decreases |stash| - sid
  {
    if sid < |stash| {
      var x := stash[sid];
      var positions1 := Touch(positions, x);
      var ssid := Find(stash, Empty, 0, c.height);
      var stash1 := if positions1[x] == leaf && ssid < c.height then stash[ssid := x] else stash;
      BringBackFills(c, stash1, positions1, leaf, sid + 1);
      BringBackKeeps(c, stash1, positions1, leaf, sid + 1);
      var r := BringBack(c, stash, positions, leaf, sid).0;
      assert r == BringBack(c, stash1, positions1, leaf, sid + 1).0;
      hide BringBack, Find, Touch;
      OneBroughtBack(c, stash, positions, positions1, leaf, sid, ssid, stash1, r);
    }
  }

  predicate Full(c: Config, stash: seq<Slot>) { forall i :: 0 <= i < c.height && i < |stash| ==> stash[i] != Empty }

  lemma OneBroughtBack(c: Config, stash: seq<Slot>, positions: map<Slot, nat>, positions1: map<Slot, nat>, leaf: nat,
      sid: nat, ssid: nat, stash1: seq<Slot>, r: seq<Slot>)
    requires c.height < sid < |stash| && leaf > 0 && |r| == |stash| && (Empty in positions ==> positions[Empty] == 0)
    requires positions1 == if stash[sid] in positions then positions else positions[stash[sid] := 0]
    requires ssid <= c.height && (ssid < c.height ==> stash[ssid] == Empty) &&
      forall j :: 0 <= j < ssid ==> stash[j] != Empty
    requires stash1 == if positions1[stash[sid]] == leaf && ssid < c.height then stash[ssid := stash[sid]] else stash
    requires forall i :: 0 <= i < c.height ==> r[i] == stash1[i] || From(c, stash1, positions1, leaf, sid + 1, r[i])
    requires forall x :: From(c, stash1, positions1, leaf, sid + 1, x) ==> InLower(c, r, x) || Full(c, r)
    requires forall i :: 0 <= i < c.height && stash1[i] != Empty ==> r[i] == stash1[i]
    ensures forall i :: 0 <= i < c.height ==> r[i] == stash[i] || From(c, stash, positions, leaf, sid, r[i])
    ensures forall x :: From(c, stash, positions, leaf, sid, x) ==> InLower(c, r, x) || Full(c, r)
  {
    var x := stash[sid];
    forall y ensures From(c, stash1, positions1, leaf, sid + 1, y) ==> From(c, stash, positions, leaf, sid, y) {
    }
    forall y | From(c, stash, positions, leaf, sid, y) ensures InLower(c, r, y) || Full(c, r) {
      var j :| sid <= j < |stash| && stash[j] == y && y in positions && positions[y] == leaf;
      if j > sid {
        assert stash1[j] == y;
      } else if ssid < c.height {
        assert r[ssid] == x;
      }
    }
    forall i | 0 <= i < c.height ensures r[i] == stash[i] || From(c, stash, positions, leaf, sid, r[i]) {
      if i == ssid && stash1 != stash {
        assert r[i] == x;
      }
    }
  }

  // ---- the slots before they are written to the path ----

  ghost predicate Settled(c: Config, s: State, leaf: nat, newLeaf: nat, b: nat, stash: seq<Slot>) {
    && |stash| == |s.stash| == c.stashSize && c.height + 1 < |stash| && Shape(c, s) && c.IsLeaf(leaf)
    && (InUpper(c, stash, Block(b)) ==>
         forall j: nat :: Shared(c, leaf, newLeaf, j) ==> SlotTaken(c, s, leaf, b, stash, j))
    && (!InUpper(c, stash, Block(b)) ==>
         exists k: nat :: MovedTo(c, leaf, newLeaf, b, stash, k) &&
             forall j: nat :: k < j && Shared(c, leaf, newLeaf, j) ==> SlotTaken(c, s, leaf, b, stash, j))
    && (forall i :: 0 <= i <= c.height ==>
         stash[i] == s.tree[PathNode(c, leaf, i)] || stash[i] == Block(b) ||
         (s.tree[PathNode(c, leaf, i)] == Block(b) && stash[i] == Empty) || StashedFor(c, s, stash[i], leaf))
    && (forall x :: StashedFor(c, s, x, leaf) ==>
         InLower(c, stash, x) || Full(c, stash))
  }

  predicate SlotTaken(c: Config, s: State, leaf: nat, b: nat, stash: seq<Slot>, j: nat) {
    && j <= c.height && j < |stash| && PathNode(c, leaf, j) in s.tree
    && stash[j] == s.tree[PathNode(c, leaf, j)] && stash[j].Block? && stash[j] != Block(b)
  }

  lemma SharedUpTo(c: Config, leaf: nat, newLeaf: nat)
    requires c.IsLeaf(leaf) && c.IsLeaf(newLeaf)
    ensures forall j: nat :: Shared(c, leaf, newLeaf, j) <==> j <= CommonDepth(newLeaf, leaf, c.height)
  {
    PathEnds(c, leaf);
    PathEnds(c, newLeaf);
    CommonDepthCommon(c, newLeaf, leaf, c.height);
  }

  lemma SettledBefore(c: Config, s: State, leaf: nat, b: nat, newLeaf: nat, d: nat, positions: map<Slot, nat>)
    requires c.Valid() && Shape(c, s) && LowerEmpty(c, s.stash) && c.IsLeaf(leaf) && c.IsLeaf(newLeaf)
    requires !InStash(s, b) && PlacedAt(c, s.tree, b, leaf, d)
    requires positions == s.positions[Block(b) := newLeaf] && (Empty in positions ==> positions[Empty] == 0)
    ensures var w := BeforeWrite(c, LoadPath(c, s, leaf), positions, leaf, b, newLeaf);
      w.Ok? ==> Settled(c, s, leaf, newLeaf, b, w.value)
  {
    hide BringBack, Removed, PathNode, CommonDepth, PlacedAt, Settled, WholeTree, DeepestEmpty, LoadPath, Find;
    var l := LoadPath(c, s, leaf);
    LoadedOnce(c, s, leaf, b, d);
    RemovedOnce(l, Block(b), d);
    var place := DeepestEmpty(l[d := Empty], CommonDepth(newLeaf, leaf, c.height) + 1);
    SharedTop(c, leaf, newLeaf, place);
    SharedUpTo(c, leaf, newLeaf);
    SettledSlots(c, s, leaf, b, newLeaf, d, l, place, positions);
  }

  lemma SettledSlots(c: Config, s: State, leaf: nat, b: nat, newLeaf: nat, d: nat, l: seq<Slot>, place: nat,
      positions: map<Slot, nat>)
    requires c.Valid() && Shape(c, s) && c.IsLeaf(leaf) && d <= c.height && l == LoadPath(c, s, leaf)
    requires l[d] == Block(b) && forall i :: 0 <= i < |l| && i != d ==> l[i] != Block(b)
    requires positions == s.positions[Block(b) := newLeaf] && (Empty in positions ==> positions[Empty] == 0)
    requires place <= c.height + 1 && (place > 0 ==>
      l[d := Empty][place - 1] == Empty && PathNode(c, leaf, place - 1) == PathNode(c, newLeaf, place - 1))
    requires forall j: nat :: Shared(c, leaf, newLeaf, j) && j >= place ==> l[d := Empty][j] != Empty
    ensures var stash2 := if place > 0 then l[d := Empty][place - 1 := Block(b)] else l[d := Empty];
      var stash3 := BringBack(c, stash2, positions, leaf, c.height + 1).0;
      var free := Find(stash3, Empty, c.height + 1, |stash3|);
      place > 0 || free < |stash3| ==>
        Settled(c, s, leaf, newLeaf, b, if place == 0 then stash3[free := Block(b)] else stash3)
  {
    hide BringBack, PathNode, LoadPath, Find, Shared;
    var stash2 := if place > 0 then l[d := Empty][place - 1 := Block(b)] else l[d := Empty];
    var stash3 := BringBack(c, stash2, positions, leaf, c.height + 1).0;
    var free := Find(stash3, Empty, c.height + 1, |stash3|);
    BringBackKeeps(c, stash2, positions, leaf, c.height + 1);
    BringBackFills(c, stash2, positions, leaf, c.height + 1);
    SlotsAfter(c, s, leaf, b, newLeaf, d, l, place, stash2, stash3);
    if place > 0 || free < |stash3| {
      var stash := if place == 0 then stash3[free := Block(b)] else stash3;
      SlotsFilled(c, s, leaf, b, newLeaf, d, l, place, positions, stash2, stash3, free, stash);
    }
  }

  lemma SlotsFilled(c: Config, s: State, leaf: nat, b: nat, newLeaf: nat, d: nat, l: seq<Slot>, place: nat,
      positions: map<Slot, nat>, stash2: seq<Slot>, stash3: seq<Slot>, free: nat, stash: seq<Slot>)
    requires c.Valid() && Shape(c, s) && c.IsLeaf(leaf) && d <= c.height && l == LoadPath(c, s, leaf)
    requires l[d] == Block(b) && forall i :: 0 <= i < |l| && i != d ==> l[i] != Block(b)
    requires positions == s.positions[Block(b) := newLeaf]
    requires place <= c.height + 1
    requires forall j: nat :: Shared(c, leaf, newLeaf, j) && j >= place ==> l[d := Empty][j] != Empty
    requires stash2 == if place > 0 then l[d := Empty][place - 1 := Block(b)] else l[d := Empty]
    requires |stash3| == |stash2|
    requires forall i :: c.height <= i < |stash2| ==> stash3[i] == stash2[i]
    requires forall i :: 0 <= i < c.height ==>
      stash3[i] == stash2[i] || (stash2[i] == Empty && From(c, stash2, positions, leaf, c.height + 1, stash3[i]))
    requires forall x :: From(c, stash2, positions, leaf, c.height + 1, x) ==>
      InLower(c, stash3, x) || Full(c, stash3)
    requires place > 0 ==> stash == stash3 && MovedTo(c, leaf, newLeaf, b, stash3, place - 1)
    requires place == 0 ==> c.height < free < |stash3| && stash == stash3[free := Block(b)]
    ensures Settled(c, s, leaf, newLeaf, b, stash)
  {
    hide PathNode, MovedTo;
    assert forall i :: 0 <= i <= c.height ==> stash[i] == stash3[i];
    forall x ensures From(c, stash2, positions, leaf, c.height + 1, x) <==> StashedFor(c, s, x, leaf) {
      SameSource(c, s, leaf, b, newLeaf, positions, stash2, x);
    }
    forall j: nat | j >= place && Shared(c, leaf, newLeaf, j) ensures SlotTaken(c, s, leaf, b, stash, j) {
      assert l[d := Empty][j] != Empty && j != d;
      assert stash2[j] == l[j] == stash3[j];
    }
    forall x | StashedFor(c, s, x, leaf)
      ensures InLower(c, stash, x) || Full(c, stash)
    {
      if InLower(c, stash3, x) {
        var i :| 0 <= i < c.height && i < |stash3| && stash3[i] == x;
        assert stash[i] == x;
      }
    }
    if place == 0 {
      assert stash[free] == Block(b);
    } else {
      NotAbove(c, leaf, newLeaf, b, stash, place - 1);
    }
  }

  lemma NotAbove(c: Config, leaf: nat, newLeaf: nat, b: nat, stash: seq<Slot>, k: nat)
    requires MovedTo(c, leaf, newLeaf, b, stash, k)
    ensures !InUpper(c, stash, Block(b))
  {
  }

  /** The upper slots are those of the stash before. */
  lemma SameSource(c: Config, s: State, leaf: nat, b: nat, newLeaf: nat, positions: map<Slot, nat>, stash2: seq<Slot>,
      x: Slot)
    requires |stash2| == |s.stash| && c.height < |stash2| && positions == s.positions[Block(b) := newLeaf]
    requires forall i :: c.height < i < |stash2| ==> stash2[i] == s.stash[i] && stash2[i] != Block(b)
    ensures From(c, stash2, positions, leaf, c.height + 1, x) <==> StashedFor(c, s, x, leaf)
  {
    if From(c, stash2, positions, leaf, c.height + 1, x) {
      var j :| c.height + 1 <= j < |stash2| && stash2[j] == x && x in positions && positions[x] == leaf;
      assert s.stash[j] == x;
    }
    if StashedFor(c, s, x, leaf) {
      var j :| c.height < j < |s.stash| && s.stash[j] == x;
      assert stash2[j] == x;
    }
  }

  // ---- the result of an access ----

  /** The way to the leaf holds x, above the leaf itself. */
  predicate OnPath(c: Config, tree: map<nat, Slot>, leaf: nat, x: Slot) {
    exists i: nat :: i < c.height && PathNode(c, leaf, i) in tree && tree[PathNode(c, leaf, i)] == x
  }

  predicate PathFull(c: Config, tree: map<nat, Slot>, leaf: nat) {
    forall i: nat :: i < c.height ==> PathNode(c, leaf, i) in tree && tree[PathNode(c, leaf, i)] != Empty
  }

  /** One access to a block outside the stash, seen from outside. */
  ghost predicate PlacedWell(c: Config, s: State, e: State, leaf: nat, b: nat, newLeaf: nat) {
    // in the stash only if no shared node was free; otherwise as deep as it can be
    && (InStash(e, b) ==> forall j: nat :: Shared(c, leaf, newLeaf, j) ==> Taken(c, s.tree, e.tree, leaf, j, b))
    && (!InStash(e, b) ==> exists k: nat :: Deepest(c, s.tree, e.tree, leaf, newLeaf, b, k))
    // a path node holds what it held, the block, or a stashed block of this leaf; it may have lost the block
    && (forall i: nat :: i <= c.height ==>
         var n := PathNode(c, leaf, i);
         n in s.tree && n in e.tree &&
         (e.tree[n] == s.tree[n] || e.tree[n] == Block(b) || (s.tree[n] == Block(b) && e.tree[n] == Empty)
          || StashedFor(c, s, e.tree[n], leaf)))
    // a stashed block of this leaf is on the path, or there is no room above the leaf
    && (forall x :: StashedFor(c, s, x, leaf) ==> OnPath(c, e.tree, leaf, x) || PathFull(c, e.tree, leaf))
    // the other nodes are as they were
    && (forall n: nat :: n in s.tree && (forall i: nat :: i <= c.height ==> n != PathNode(c, leaf, i)) ==>
         n in e.tree && e.tree[n] == s.tree[n])
  }

  /** Whatever the access, the blocks are left like this. */
  lemma AccessPlaces(c: Config, s: State, addr: nat, newLeaf: nat)
    requires c.Valid() && Inv(c, s) && c.IsLeaf(newLeaf)
    requires BlockOf(c, addr) < c.blocks && !InStash(s, BlockOf(c, addr)) && Access(c, s, addr, newLeaf).Ok?
    ensures var b := BlockOf(c, addr);
      PlacedWell(c, s, Access(c, s, addr, newLeaf).value, s.positions[Block(b)], b, newLeaf)
  {
    var b := BlockOf(c, addr);
    var leaf := s.positions[Block(b)];
    var positions := s.positions[Block(b) := newLeaf];
    var d: nat :| PlacedAt(c, s.tree, b, leaf, d);
    var loaded := State(LoadPath(c, s, leaf), positions, s.tree);
    SplitWriteBack(c, loaded, leaf, b, newLeaf);
    SettledBefore(c, s, leaf, b, newLeaf, d, positions);
    MovedWhere(c, s, leaf, b, newLeaf, d, positions);
    var stash := BeforeWrite(c, loaded.stash, positions, leaf, b, newLeaf).value;
    var e := Access(c, s, addr, newLeaf).value;
    assert Written(c, s, leaf, stash, e);
    hide *;
    PlacesWell(c, s, e, leaf, b, newLeaf, stash, d);
  }

  lemma PlacesWell(c: Config, s: State, e: State, leaf: nat, b: nat, newLeaf: nat, stash: seq<Slot>, d: nat)
    requires c.Valid() && c.IsLeaf(leaf) && c.IsLeaf(newLeaf) && PlacedAt(c, s.tree, b, leaf, d)
    requires Settled(c, s, leaf, newLeaf, b, stash) && Written(c, s, leaf, stash, e)
    ensures PlacedWell(c, s, e, leaf, b, newLeaf)
  {
    WriteUpWrites(c, s.tree, stash, leaf, c.height);
    hide PathNode, WriteUp, Shared, MovedTo;
    assert InStash(e, b) <==> InUpper(c, stash, Block(b)) by {
      InClearedStash(c, stash, b);
    }
    forall j: nat | SlotTaken(c, s, leaf, b, stash, j) ensures Taken(c, s.tree, e.tree, leaf, j, b) {
      assert e.tree[PathNode(c, leaf, j)] == stash[j];
    }
    if !InStash(e, b) {
      var k: nat :| MovedTo(c, leaf, newLeaf, b, stash, k) &&
        forall j: nat :: k < j && Shared(c, leaf, newLeaf, j) ==> SlotTaken(c, s, leaf, b, stash, j);
      MovedIsPlaced(c, s, e, leaf, b, newLeaf, stash, d, k);
      assert Deepest(c, s.tree, e.tree, leaf, newLeaf, b, k);
    }
    BroughtBack(c, s, e, leaf, stash);
  }

  lemma BroughtBack(c: Config, s: State, e: State, leaf: nat, stash: seq<Slot>)
    requires Written(c, s, leaf, stash, e)
    requires forall x :: StashedFor(c, s, x, leaf) ==> InLower(c, stash, x) || Full(c, stash)
    ensures forall x :: StashedFor(c, s, x, leaf) ==> OnPath(c, e.tree, leaf, x) || PathFull(c, e.tree, leaf)
  {
    WriteUpWrites(c, s.tree, stash, leaf, c.height);
    hide PathNode, WriteUp;
    forall x | StashedFor(c, s, x, leaf) ensures OnPath(c, e.tree, leaf, x) || PathFull(c, e.tree, leaf) {
      if InLower(c, stash, x) {
        var i: nat :| i < c.height && i < |stash| && stash[i] == x;
        assert e.tree[PathNode(c, leaf, i)] == x;
      }
    }
  }

  lemma InClearedStash(c: Config, stash: seq<Slot>, b: nat)
    ensures Block(b) in Cleared(c, stash) <==> InUpper(c, stash, Block(b))
  {
    if InUpper(c, stash, Block(b)) {
      var j :| c.height < j < |stash| && stash[j] == Block(b);
      assert Cleared(c, stash)[j] == Block(b);
    }
  }

  lemma MovedIsPlaced(c: Config, s: State, e: State, leaf: nat, b: nat, newLeaf: nat, stash: seq<Slot>, d: nat, k: nat)
    requires c.IsLeaf(leaf) && c.IsLeaf(newLeaf) && PlacedAt(c, s.tree, b, leaf, d)
    requires MovedTo(c, leaf, newLeaf, b, stash, k) && Written(c, s, leaf, stash, e)
    ensures Shared(c, leaf, newLeaf, k) && PlacedAt(c, e.tree, b, newLeaf, k)
  {
    WriteUpWrites(c, s.tree, stash, leaf, c.height);
    hide WriteUp, PathNode;
    forall n: nat | n in e.tree && e.tree[n] == Block(b) ensures n == PathNode(c, newLeaf, k) {
      if f: nat :| f <= c.height && n == PathNode(c, leaf, f) {
        assert stash[f] == Block(b);
      }
    }
  }

  /** The node at depth d of the way to leaf holds another block than b. */
  predicate Occupied(c: Config, tree: map<nat, Slot>, leaf: nat, d: nat, b: nat) {
    d <= c.height && PathNode(c, leaf, d) in tree && tree[PathNode(c, leaf, d)].Block? &&
    tree[PathNode(c, leaf, d)] != Block(b)
  }

  /** An access aborts exactly if the upper stash is full and other blocks hold every node the two ways share. */
  lemma OverflowsExactly(c: Config, s: State, addr: nat, newLeaf: nat)
    requires c.Valid() && Inv(c, s) && c.IsLeaf(newLeaf)
    requires BlockOf(c, addr) < c.blocks && !InStash(s, BlockOf(c, addr))
    ensures var b := BlockOf(c, addr); var leaf := s.positions[Block(b)];
      Access(c, s, addr, newLeaf).Abort? <==>
        && (forall i :: c.height < i < |s.stash| ==> s.stash[i] != Empty)
        && forall j: nat :: Shared(c, leaf, newLeaf, j) ==> Occupied(c, s.tree, leaf, j, b)
  {
    var b := BlockOf(c, addr);
    var leaf := s.positions[Block(b)];
    var positions := s.positions[Block(b) := newLeaf];
    var d: nat :| PlacedAt(c, s.tree, b, leaf, d);
    var l := LoadPath(c, s, leaf);
    LoadedOnce(c, s, leaf, b, d);
    AbortsBefore(c, s, addr, newLeaf);
    hide LoadPath, PathNode, PlacedAt, Access, CommonDepth, Removed, DeepestEmpty, BringBack, Find, BeforeWrite, Shape;
    NoPlace(c, s, leaf, b, newLeaf, d, l);
    NoUpperSlot(c, s, d, l, l[d := Empty], positions, leaf);
    NoSlot(c, l, positions, leaf, b, newLeaf, d);
  }

  lemma AbortsBefore(c: Config, s: State, addr: nat, newLeaf: nat)
    requires c.Valid() && Inv(c, s) && c.IsLeaf(newLeaf)
    requires BlockOf(c, addr) < c.blocks && !InStash(s, BlockOf(c, addr))
    ensures var b := BlockOf(c, addr); var leaf := s.positions[Block(b)];
      var positions := s.positions[Block(b) := newLeaf];
      Access(c, s, addr, newLeaf).Abort? <==>
        BeforeWrite(c, LoadPath(c, s, leaf), positions, leaf, b, newLeaf).Abort?
  {
    var b := BlockOf(c, addr);
    var leaf := s.positions[Block(b)];
    var positions := s.positions[Block(b) := newLeaf];
    SplitWriteBack(c, State(LoadPath(c, s, leaf), positions, s.tree), leaf, b, newLeaf);
    hide WriteBack, BeforeWrite, LoadPath;
  }

  lemma NoSlot(c: Config, l: seq<Slot>, positions: map<Slot, nat>, leaf: nat, b: nat, newLeaf: nat, d: nat)
    requires d <= c.height < |l| && l[d] == Block(b) && forall i :: 0 <= i < |l| && i != d ==> l[i] != Block(b)
    ensures BeforeWrite(c, l, positions, leaf, b, newLeaf).Abort? <==>
      && DeepestEmpty(l[d := Empty], CommonDepth(newLeaf, leaf, c.height) + 1) == 0
      && var stash3 := BringBack(c, l[d := Empty], positions, leaf, c.height + 1).0;
         Find(stash3, Empty, c.height + 1, |stash3|) == |stash3|
  {
    RemovedOnce(l, Block(b), d);
    hide BringBack, Removed, CommonDepth, DeepestEmpty, Find;
  }

  lemma NoPlace(c: Config, s: State, leaf: nat, b: nat, newLeaf: nat, d: nat, l: seq<Slot>)
    requires c.Valid() && Shape(c, s) && c.IsLeaf(leaf) && c.IsLeaf(newLeaf) && d <= c.height
    requires l == LoadPath(c, s, leaf) && l[d] == Block(b) && forall i :: 0 <= i < |l| && i != d ==> l[i] != Block(b)
    ensures DeepestEmpty(l[d := Empty], CommonDepth(newLeaf, leaf, c.height) + 1) == 0 <==>
      forall j: nat :: Shared(c, leaf, newLeaf, j) ==> Occupied(c, s.tree, leaf, j, b)
  {
    SharedUpTo(c, leaf, newLeaf);
    hide PathNode, CommonDepth, Shared;
    var place := DeepestEmpty(l[d := Empty], CommonDepth(newLeaf, leaf, c.height) + 1);
    if place > 0 {
      assert Shared(c, leaf, newLeaf, place - 1) && !Occupied(c, s.tree, leaf, place - 1, b);
    } else {
      forall j: nat | Shared(c, leaf, newLeaf, j) ensures Occupied(c, s.tree, leaf, j, b) {
        assert l[d := Empty][j] != Empty;
      }
    }
  }

  lemma NoUpperSlot(c: Config, s: State, d: nat, l: seq<Slot>, stash2: seq<Slot>, positions: map<Slot, nat>, leaf: nat)
    requires |l| == |s.stash| == |stash2| && d <= c.height < |stash2|
    requires forall i :: c.height < i < |l| ==> stash2[i] == s.stash[i]
    ensures var stash3 := BringBack(c, stash2, positions, leaf, c.height + 1).0;
      Find(stash3, Empty, c.height + 1, |stash3|) == |stash3| <==>
        forall i :: c.height < i < |s.stash| ==> s.stash[i] != Empty
  {
    BringBackKeeps(c, stash2, positions, leaf, c.height + 1);
    hide BringBack;
  }
}
