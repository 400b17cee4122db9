/** The ORAM simulator object: an array for the stash, and maps for the tree and the positions. */
module OramSim {
  import opened Arith
  import opened Oram
  import opened OramSafety

  class OramSim {
    const c: Config
    const stash: array<Slot>
    var positionMap: map<Slot, nat>
    var oramTree: map<nat, Slot>
    var oramAccesses: nat
    var stashHit: nat
    var stashMiss: nat

    ghost predicate Valid() reads this, stash { c.Valid() && Shape(c, Contents()) }

    function Contents(): State reads this, stash { State(stash[..], positionMap, oramTree) }

    /** Every inner node and stash slot is empty; block after block goes to leaf after leaf. */
    constructor (c: Config)
      requires c.Valid()
      ensures this.c == c && fresh(stash) && Valid() && Initial(c, Contents()) &&
        oramAccesses == stashHit == stashMiss == 0
    {
      this.c := c;
      stash := new Slot[c.stashSize];
      positionMap, oramTree := map[], map[];
      oramAccesses, stashHit, stashMiss := 0, 0, 0;
      new;
      EmptyInnerNodes();
      EmptyStash();
      FillLeaves();
    }

    method EmptyInnerNodes()
      requires c.Valid() && oramTree == map[]
      modifies this`oramTree
      ensures forall n: nat :: n in oramTree <==> 1 <= n < c.Leaves()
      ensures forall n: nat :: 1 <= n < c.Leaves() ==> oramTree[n] == Empty
    {
      for i := 1 to c.Leaves()
        invariant forall n: nat :: n in oramTree <==> 1 <= n < i
        invariant forall n: nat :: 1 <= n < i ==> oramTree[n] == Empty
      {
        oramTree := oramTree[i := Empty];
      }
    }

    method EmptyStash()
      modifies stash
      ensures forall j :: 0 <= j < stash.Length ==> stash[j] == Empty
    {
      for i := 0 to stash.Length
        invariant forall j :: 0 <= j < i ==> stash[j] == Empty
      {
        stash[i] := Empty;
      }
    }

    /** One block for each leaf. */
    method FillLeaves()
      requires c.Valid() && positionMap == map[]
      requires forall n: nat :: n in oramTree <==> 1 <= n < c.Leaves()
      requires forall n: nat :: 1 <= n < c.Leaves() ==> oramTree[n] == Empty
      modifies this`oramTree, this`positionMap
      ensures forall n: nat :: n in oramTree <==> 1 <= n <= c.Nodes()
      ensures forall n: nat :: 1 <= n <= c.Nodes() ==>
        oramTree[n] == if n < c.Leaves() then Empty else Block(n - c.Leaves())
      ensures forall k :: k in positionMap <==> k.Block? && k.id < c.Nodes() + 1 - c.Leaves()
      ensures forall b: nat :: b < c.Nodes() + 1 - c.Leaves() ==> positionMap[Block(b)] == c.Leaves() + b
    {
      var bid := 0;
      for leafid := c.Leaves() to c.Nodes() + 1
        invariant bid == leafid - c.Leaves()
        invariant forall n: nat :: n in oramTree <==> 1 <= n < leafid
        invariant forall n: nat :: 1 <= n < leafid ==>
          oramTree[n] == if n < c.Leaves() then Empty else Block(n - c.Leaves())
        invariant forall k :: k in positionMap <==> k.Block? && k.id < bid
        invariant forall b: nat :: b < bid ==> positionMap[Block(b)] == c.Leaves() + b
      {
        oramTree := oramTree[leafid := Block(bid)];
        positionMap := positionMap[Block(bid) := leafid];
        bid := bid + 1;
      }
    }

    method BlockIsInStash(blockId: nat) returns (found: bool)
      requires Valid()
      ensures found == InStash(Contents(), blockId)
    {
      for i := 0 to stash.Length
        invariant forall j :: 0 <= j < i ==> stash[j] != Block(blockId)
      {
        if stash[i] == Block(blockId) {
          assert stash[..][i] == Block(blockId);
          return true;
        }
      }
      return false;
    }

    /** Loads the path from the leaf up, one halving for each slot. */
    method LoadPathToStash(leaf: nat)
      requires Valid() && c.IsLeaf(leaf)
      modifies stash
      ensures Valid() && Contents() == old(Contents()).(stash := LoadPath(c, old(Contents()), leaf))
    {
      var s: int, cur: nat := c.height, leaf;
      PathEnds(c, leaf);
      while s >= 0
        invariant -1 <= s <= c.height && (s >= 0 ==> cur == PathNode(c, leaf, s))
        invariant forall i :: s < i <= c.height ==> stash[i] == oramTree[PathNode(c, leaf, i)]
        invariant forall i :: 0 <= i <= s || c.height < i < stash.Length ==> stash[i] == old(stash[i])
      {
        stash[s] := oramTree[cur];
        if s > 0 {
          StepUp(c, leaf, s - 1);
        }
        cur := cur / 2;
        s := s - 1;
      }
      assert stash[..] == LoadPath(c, old(Contents()), leaf);
    }

    /** Where the ways to the two leaves part. */
    method NearestAncestor(leaf: nat, newLeaf: nat) returns (curHeight: nat)
      requires Valid() && c.IsLeaf(leaf) && c.IsLeaf(newLeaf)
      ensures curHeight == CommonDepth(newLeaf, leaf, c.height)
    {
      var a, b := newLeaf, leaf;
      curHeight := c.height;
      PathEnds(c, leaf);
      PathEnds(c, newLeaf);
      while a != b
        invariant curHeight <= c.height && a == PathNode(c, newLeaf, curHeight) && b == PathNode(c, leaf, curHeight)
        invariant CommonDepth(newLeaf, leaf, c.height) == CommonDepth(a, b, curHeight)
        decreases curHeight
      {
        StepUp(c, newLeaf, curHeight - 1);
        StepUp(c, leaf, curHeight - 1);
        a, b := a / 2, b / 2;
        curHeight := curHeight - 1;
      }
    }

    method RemoveFromStash(bid: nat)
      requires Valid()
      modifies stash
      ensures stash[..] == Removed(old(stash[..]), Block(bid))
    {
      var sid := 0;
      while sid < stash.Length
        invariant sid <= stash.Length && stash[..] == old(stash[..])
        invariant Find(stash[..], Block(bid), 0, stash.Length) == Find(stash[..], Block(bid), sid, stash.Length)
      {
        if stash[sid] == Block(bid) {
          stash[sid] := Empty;
          return;
        }
        sid := sid + 1;
      }
    }

    /** Puts the block into the deepest empty slot of the shared part of the path. */
    method Place(curHeight: nat, bid: nat) returns (found: bool)
      requires Valid() && curHeight <= c.height
      modifies stash
      ensures var before := old(stash[..]); var place := DeepestEmpty(before, curHeight + 1);
        found == (place > 0) && stash[..] == if place > 0 then before[place - 1 := Block(bid)] else before
    {
      var sid: int := curHeight;
      while sid >= 0
        invariant -1 <= sid <= curHeight && stash[..] == old(stash[..])
        invariant DeepestEmpty(stash[..], curHeight + 1) == DeepestEmpty(stash[..], sid + 1)
      {
        if stash[sid] == Empty {
          stash[sid] := Block(bid);
          return true;
        }
        sid := sid - 1;
      }
      return false;
    }

    /**
     Copies stashed blocks of this leaf into empty slots; the line meant to clear their slot compares
     instead of assigning.
    */
    method BringEvicted(leaf: nat)
      requires Valid()
      modifies this`positionMap, stash
      ensures (stash[..], positionMap) == BringBack(c, old(stash[..]), old(positionMap), leaf, c.height + 1)
    {
      for sid := c.height + 1 to stash.Length
        invariant BringBack(c, old(stash[..]), old(positionMap), leaf, c.height + 1) ==
          BringBack(c, stash[..], positionMap, leaf, sid)
      {
        positionMap := Touch(positionMap, stash[sid]);
        if positionMap[stash[sid]] == leaf {
          CopyDown(sid);
        }
      }
    }

    /** Copies slot sid to the first empty slot of the path, if there is one. */
    method CopyDown(sid: nat)
      requires Valid() && c.height < sid < stash.Length
      modifies stash
      ensures var before := old(stash[..]); var free := Find(before, Empty, 0, c.height);
        stash[..] == if free < c.height then before[free := before[sid]] else before
    {
      ghost var before := stash[..];
      var ssid := 0;
      while ssid < c.height
        invariant ssid <= c.height && stash[..] == before
        invariant Find(before, Empty, 0, c.height) == Find(before, Empty, ssid, c.height)
      {
        if stash[ssid] == Empty {
          stash[ssid] := stash[sid];
          return;
        }
        ssid := ssid + 1;
      }
    }

    /** Leaves the block in the first empty slot of the upper stash. */
    method KeepInStash(bid: nat) returns (overflow: bool)
      requires Valid()
      modifies stash
      ensures var before := old(stash[..]); var free := Find(before, Empty, c.height + 1, |before|);
        overflow == (free == |before|) && stash[..] == if overflow then before else before[free := Block(bid)]
    {
      overflow := false;
      var sid := c.height + 1;
      while sid < stash.Length
        invariant c.height < sid <= stash.Length && stash[..] == old(stash[..]) && overflow == (sid == stash.Length)
        invariant Find(stash[..], Empty, c.height + 1, stash.Length) == Find(stash[..], Empty, sid, stash.Length)
      {
        if stash[sid] == Empty {
          stash[sid] := Block(bid);
          break;
        }
        if sid == stash.Length - 1 {
          overflow := true;
        }
        sid := sid + 1;
      }
    }

    /** Writes the lower slots to the path, from the leaf up, and clears them. */
    method WritePath(leaf: nat)
      requires Valid() && c.IsLeaf(leaf)
      modifies this`oramTree, stash
      ensures stash[..] == Cleared(c, old(stash[..])) &&
        oramTree == WriteUp(c, old(oramTree), old(stash[..]), leaf, c.height)
    {
      var stackCursor: nat, cur: nat := c.height, leaf;
      ghost var before := stash[..];
      PathEnds(c, leaf);
      while true
        invariant stackCursor <= c.height && cur == PathNode(c, leaf, stackCursor) && WholeTree(c, oramTree)
        invariant forall i :: stackCursor < i <= c.height ==> stash[i] == Empty
        invariant forall i :: 0 <= i <= stackCursor || c.height < i < stash.Length ==> stash[i] == before[i]
        invariant WriteUp(c, old(oramTree), before, leaf, c.height) == WriteUp(c, oramTree, before, leaf, stackCursor)
        decreases stackCursor
      {
        oramTree := oramTree[cur := stash[stackCursor]];
        stash[stackCursor] := Empty;
        if stackCursor == 0 {
          break;
        }
        StepUp(c, leaf, stackCursor - 1);
        cur := cur / 2;
        stackCursor := stackCursor - 1;
      }
      assert stash[..] == Cleared(c, before);
    }

    method StashWriteBack(leaf: nat, bid: nat, newLeaf: nat) returns (r: Outcome<()>)
      requires Valid() && c.IsLeaf(leaf) && c.IsLeaf(newLeaf)
      modifies this`positionMap, this`oramTree, stash
      ensures match WriteBack(c, old(Contents()), leaf, bid, newLeaf)
              case Ok(s) => r.Ok? && Valid() && Contents() == s
              case Abort(f) => r == Abort(f)
    {
      hide BringBack, WriteUp, PathNode, Removed, DeepestEmpty, CommonDepth, Find;
      var curHeight := NearestAncestor(leaf, newLeaf);
      RemoveFromStash(bid);
      var found := Place(curHeight, bid);
      BringEvicted(leaf);
      if !found {
        var overflow := KeepInStash(bid);
        if overflow {
          return Abort(StashOverflow);
        }
      }
      WritePath(leaf);
      return Ok(());
    }

    /** One access; newLeaf is what the random generator delivers, if it is asked. */
    method Access(addr: nat, newLeaf: nat) returns (r: Outcome<()>)
      requires Valid() && c.IsLeaf(newLeaf)
      modifies this, stash
      ensures match Oram.Access(c, old(Contents()), addr, newLeaf)
              case Ok(s) => r.Ok? && Valid() && Contents() == s
              case Abort(f) => r == Abort(f)
      ensures oramAccesses == old(oramAccesses) + 1
      ensures r.Ok? ==> stashHit + stashMiss == old(stashHit) + old(stashMiss) + 1
      ensures r.Ok? && stashHit > old(stashHit) ==> Contents() == old(Contents())
    {
      oramAccesses := oramAccesses + 1;
      var blockId := BlockOf(c, addr);
      if blockId >= c.blocks {
        return Abort(NoSuchBlock);
      }
      var hit := BlockIsInStash(blockId);
      if hit {
        stashHit := stashHit + 1;
        return Ok(());
      }
      stashMiss := stashMiss + 1;
      positionMap := Touch(positionMap, Block(blockId));
      var leaf := positionMap[Block(blockId)];
      positionMap := positionMap[Block(blockId) := newLeaf];
      assert positionMap == old(positionMap)[Block(blockId) := newLeaf];
      if !c.IsLeaf(leaf) {
        return Abort(NotALeaf);
      }
      LoadPathToStash(leaf);
      r := StashWriteBack(leaf, blockId, newLeaf);
    }
  }
}
