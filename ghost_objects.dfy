/** The pool of ghost objects: the fogged-memory stand-ins the W3D device keeps for game
    objects a player last saw under fog. The manager keeps every ghost it ever made on one
    of two intrusive doubly linked lists, threaded through each ghost's
    `m_nextSystem`/`m_prevSystem`: the used list and the free list. Adding takes the
    free-list head (or a new ghost) to the front of the used list; removing frees the
    ghost's snapshots and moves it to the front of the free list.

    Each ghost holds, per player, a chain of render-object snapshots; a chain is a
    sequence here. Rendering (scene insertion, render-object creation, UV animations) and
    the partition manager are left out; objects, partition data and drawables are
    identifiers. */
module GhostObjects {
  import opened Wrappers
  import XferEngine

  /** `MAX_PLAYER_COUNT`. */
  const MaxPlayerCount: nat := 16
  /** Highest value plus one of an `UnsignedByte`. */
  const ByteRange: nat := 256

  type ObjectId = nat
  type PartitionId = nat
  type DrawableId = nat

  /** What a snapshot records of one render object. */
  datatype Snapshot = Snapshot(name: string, scale: real, color: nat)

  type Chain = seq<Snapshot>

  /** `INI_INVALID_DATA`, or an error the transfer itself threw. */
  datatype GhostXferError = Transfer(e: XferEngine.XferError) | InvalidData

  /** Every player slot without snapshots. */
  function NoSnapshots(): (r: seq<Chain>)
    ensures |r| == MaxPlayerCount && forall i :: 0 <= i < |r| ==> r[i] == []
  {
    seq(MaxPlayerCount, _ => [])
  }

  /** The slots after `freeAllSnapShots`: all of them when every player is tracked,
      otherwise only the local player's. */
  function AllFreed(slots: seq<Chain>, trackAll: bool, localPlayer: nat): (r: seq<Chain>)
    requires localPlayer < |slots|
    ensures |r| == |slots|
    ensures trackAll ==> forall i :: 0 <= i < |r| ==> r[i] == []
    ensures !trackAll ==> r == slots[localPlayer := []]
  {
    if trackAll then seq(|slots|, _ => []) else slots[localPlayer := []]
  }

  // ---------------------------------------------------------------------------
  // Snapshot count in a saved game

  /** The snapshot count of a chain as an `UnsignedByte`, as the counting walk arrives
      at it. */
  function ByteCount(chain: Chain): nat
  {
    |chain| % ByteRange
  }

  /** The count transfer for one player slot: the chain's count is transferred as a
      byte, and a count of 0 for a slot that holds snapshots is invalid data. */
  function SnapshotCountOutcome(m: XferEngine.XferMode, s: seq<XferEngine.Token>, chain: Chain)
    : Result<(int, seq<XferEngine.Token>), GhostXferError>
  {
    match XferEngine.NumOutcome(m, s, ByteCount(chain))
    case Err(e) => Err(Transfer(e))
    case Ok((n, s')) => if n == 0 && chain != [] then Err(InvalidData) else Ok((n, s'))
  }

  /** Loading a count of 0 over a slot that already holds snapshots is rejected; over an
      empty slot it is accepted. */
  lemma LoadedZeroCount(chain: Chain, rest: seq<XferEngine.Token>)
    ensures chain != [] ==> SnapshotCountOutcome(XferEngine.Load, [XferEngine.Num(0)] + rest, chain) == Err(InvalidData)
    ensures chain == [] ==> SnapshotCountOutcome(XferEngine.Load, [XferEngine.Num(0)] + rest, chain) == Ok((0, rest))
  {
    assert ([XferEngine.Num(0)] + rest)[1..] == rest;
  }

  /** Saving a slot with fewer than 256 snapshots writes its count and never fails. */
  lemma SavedCount(chain: Chain, s: seq<XferEngine.Token>)
    requires |chain| < ByteRange
    ensures SnapshotCountOutcome(XferEngine.Save, s, chain) == Ok((|chain|, s + [XferEngine.Num(|chain|)]))
  {
  }

  /** A slot with 256 snapshots counts as 0 in the byte, so saving it trips the check. */
  lemma SavedCountWraps(chain: Chain, s: seq<XferEngine.Token>)
    requires |chain| == ByteRange
    ensures SnapshotCountOutcome(XferEngine.Save, s, chain) == Err(InvalidData)
  {
  }

  /** A count saved and then loaded over the same slot comes back unchanged. */
  lemma CountRoundTrip(chain: Chain, s: seq<XferEngine.Token>, rest: seq<XferEngine.Token>)
    requires |chain| < ByteRange
    ensures SnapshotCountOutcome(XferEngine.Load, [XferEngine.Num(|chain|)] + rest, chain) == Ok((|chain|, rest))
  {
    assert ([XferEngine.Num(|chain|)] + rest)[1..] == rest;
  }

  // ---------------------------------------------------------------------------
  // Ghost objects

  /** What a ghost holds apart from its list links. */
  datatype Held = Held(
    parentObject: Option<ObjectId>,
    partitionData: Option<PartitionId>,
    drawable: Option<DrawableId>,
    drawableGhost: GhostObject?,
    snapshots: seq<Chain>)

  class GhostObject {
    var parentObject: Option<ObjectId>
    var partitionData: Option<PartitionId>
    /** `m_drawableInfo.m_drawable`. */
    var drawable: Option<DrawableId>
    /** `m_drawableInfo.m_ghostObject`, the back-pointer to the ghost itself. */
    var drawableGhost: GhostObject?
    /** `m_parentSnapshots`, one chain per player. */
    var parentSnapshots: seq<Chain>
    var nextSystem: GhostObject?
    var prevSystem: GhostObject?

    /** No snapshots, no drawable, unlinked. */
    constructor ()
      ensures parentSnapshots == NoSnapshots()
      ensures drawable == None && drawableGhost == null && nextSystem == null && prevSystem == null
      ensures parentObject == None && partitionData == None
    {
      parentSnapshots := NoSnapshots();
      drawable := None;
      drawableGhost := null;
      nextSystem := null;
      prevSystem := null;
      parentObject := None;
      partitionData := None;
    }

    /** What a ghost holds apart from its list links. */
    function Payload(): Held
      reads this
    {
      Held(parentObject, partitionData, drawable, drawableGhost, parentSnapshots)
    }

    /** `freeSnapShot`: the player's whole chain is dropped; an empty slot stays empty. */
    method FreeSnapShot(playerIndex: nat)
      requires playerIndex < |parentSnapshots|
      modifies this
      ensures parentSnapshots == old(parentSnapshots)[playerIndex := []]
      ensures parentObject == old(parentObject) && partitionData == old(partitionData)
      ensures drawable == old(drawable) && drawableGhost == old(drawableGhost)
      ensures nextSystem == old(nextSystem) && prevSystem == old(prevSystem)
    {
      // The chain's nodes are released one by one; only the emptied slot is modelled.
      if parentSnapshots[playerIndex] != [] {
        parentSnapshots := parentSnapshots[playerIndex := []];
      }
    }

    /** `freeAllSnapShots`: every player's chain when all players are tracked, else only
      the local player's. */
    method FreeAllSnapShots(trackAll: bool, localPlayer: nat)
      requires localPlayer < |parentSnapshots|
      modifies this
      ensures parentSnapshots == AllFreed(old(parentSnapshots), trackAll, localPlayer)
      ensures parentObject == old(parentObject) && partitionData == old(partitionData)
      ensures drawable == old(drawable) && drawableGhost == old(drawableGhost)
      ensures nextSystem == old(nextSystem) && prevSystem == old(prevSystem)
    {
      if trackAll {
        var playerIndex := 0;
        while playerIndex < |parentSnapshots|
          invariant 0 <= playerIndex <= |parentSnapshots| == |old(parentSnapshots)|
          invariant forall i :: 0 <= i < playerIndex ==> parentSnapshots[i] == []
          invariant forall i :: playerIndex <= i < |parentSnapshots| ==> parentSnapshots[i] == old(parentSnapshots)[i]
          invariant parentObject == old(parentObject) && partitionData == old(partitionData)
          invariant drawable == old(drawable) && drawableGhost == old(drawableGhost)
          invariant nextSystem == old(nextSystem) && prevSystem == old(prevSystem)
        {
          FreeSnapShot(playerIndex);
          playerIndex := playerIndex + 1;
        }
        assert parentSnapshots == AllFreed(old(parentSnapshots), trackAll, localPlayer);
      } else {
        FreeSnapShot(localPlayer);
      }
    }

    /** The snapshot-count part of `xfer` for one player slot: counts the chain in a byte,
      transfers the count, and rejects a count of 0 over a slot holding snapshots. */
    method XferSnapshotCount(x: XferEngine.Xfer, i: nat) returns (count: int, err: Option<GhostXferError>)
      requires i < |parentSnapshots|
      modifies x
      ensures x.mode == old(x.mode)
      ensures var o := SnapshotCountOutcome(old(x.mode), old(x.stream), parentSnapshots[i]);
        (o.Ok? ==> err == None && count == o.value.0 && x.stream == o.value.1)
        && (o.Err? ==> err == Some(o.error))
    {
      var snapshotCount := CountChain(parentSnapshots[i]);
      var e;
      count, e := x.XferNum(snapshotCount);
      if e.Some? {
        return count, Some(Transfer(e.value));
      }
      if count == 0 && parentSnapshots[i] != [] {
        return count, Some(InvalidData);
      }
      err := None;
    }
  }

  /** The walk along one chain that counts its snapshots in an unsigned byte. */
  method CountChain(chain: Chain) returns (count: nat)
    ensures count == ByteCount(chain)
  {
    count := 0;
    var objectSnapshot := chain;
    while objectSnapshot != []
      invariant |objectSnapshot| <= |chain|
      invariant count == (|chain| - |objectSnapshot|) % ByteRange
      decreases |objectSnapshot|
    {
      CountStep(|chain| - |objectSnapshot|);
      count := (count + 1) % ByteRange;
      objectSnapshot := objectSnapshot[1..];
    }
  }

  /** Counting one more in a byte is counting one more and then truncating. */
  lemma CountStep(n: nat)
    ensures (n % ByteRange + 1) % ByteRange == (n + 1) % ByteRange
  {
  }

  // ---------------------------------------------------------------------------
  // The pool

  /** The links of `xs` form a doubly linked list starting at `head`. */
  ghost predicate Linked(xs: seq<GhostObject>, head: GhostObject?)
    reads xs
  {
    (if xs == [] then head == null else head == xs[0])
    && (forall i {:trigger xs[i].nextSystem} :: 0 <= i < |xs| ==> xs[i].nextSystem == (if i + 1 < |xs| then xs[i + 1] else null))
    && (forall i {:trigger xs[i].prevSystem} :: 0 <= i < |xs| ==> xs[i].prevSystem == (if i > 0 then xs[i - 1] else null))
  }

  /** In a linked list, a ghost's successor is the entry after it. */
  lemma NextOf(xs: seq<GhostObject>, head: GhostObject?, before: seq<GhostObject>, x: GhostObject, after: seq<GhostObject>)
    requires Linked(xs, head) && xs == before + [x] + after
    ensures x.nextSystem == if after == [] then null else after[0]
  {
    assert xs[|before|] == x;
    if after != [] {
      assert xs[|before| + 1] == after[0];
    }
  }

  ghost predicate Distinct(xs: seq<GhostObject>)
  {
    forall i, j :: 0 <= i < j < |xs| ==> xs[i] != xs[j]
  }

  ghost predicate Disjoint(xs: seq<GhostObject>, ys: seq<GhostObject>)
  {
    forall x :: x in xs ==> x !in ys
  }

  /** Dropping the entry at `k` from a list without repeats leaves a list without repeats
      holding every other entry. */
  lemma DistinctWithout(xs: seq<GhostObject>, k: nat)
    requires Distinct(xs) && k < |xs|
    ensures Distinct(xs[..k] + xs[k + 1..])
    ensures forall x :: x in xs[..k] + xs[k + 1..] <==> x in xs && x != xs[k]
  {
    var ys := xs[..k] + xs[k + 1..];
    forall i, j | 0 <= i < j < |ys| ensures ys[i] != ys[j] {
      var a := if i < k then i else i + 1;
      var b := if j < k then j else j + 1;
      assert ys[i] == xs[a] && ys[j] == xs[b];
    }
    forall x ensures x in ys <==> x in xs && x != xs[k] {
      if x in ys {
        var i :| 0 <= i < |ys| && ys[i] == x;
        var a := if i < k then i else i + 1;
        assert xs[a] == x;
      }
      if x in xs && x != xs[k] {
        var a :| 0 <= a < |xs| && xs[a] == x;
        var i := if a < k then a else a - 1;
        assert ys[i] == x;
      }
    }
  }

  lemma DistinctCons(g: GhostObject, xs: seq<GhostObject>)
    requires Distinct(xs) && g !in xs
    ensures Distinct([g] + xs)
  {
    var ys := [g] + xs;
    forall i, j | 0 <= i < j < |ys| ensures ys[i] != ys[j] {
      assert ys[j] == xs[j - 1];
      if i > 0 {
        assert ys[i] == xs[i - 1];
      }
    }
  }

  /** Which ghosts a sweep of the used list removes. */
  datatype Sweep =
    | Parentless
    | Everything
    | Orphans(players: seq<nat>)

  /** The slots hold a snapshot for one of the listed players or for the local player. */
  predicate HasStoredSnapshot(slots: seq<Chain>, players: seq<nat>, localPlayer: nat)
  {
    (exists q :: 0 <= q < |players| && players[q] < |slots| && slots[players[q]] != [])
    || (localPlayer < |slots| && slots[localPlayer] != [])
  }

  /** The sweep selects a ghost holding `h`: `reset` first drops the ghosts without a
      parent object and then everything left; `updateOrphanedObjects` drops the ghosts
      without a parent object that no listed or local player still remembers. */
  predicate Swept(h: Held, sweep: Sweep, localPlayer: nat)
  {
    match sweep
    case Parentless => h.parentObject.None?
    case Everything => true
    case Orphans(players) => h.parentObject.None? && !HasStoredSnapshot(h.snapshots, players, localPlayer)
  }

  /** What a ghost holds once a sweep has removed it: its snapshots freed, and after the
      orphan sweep no partition data. */
  function RemovedHeld(h: Held, sweep: Sweep, trackAll: bool, localPlayer: nat): (r: Held)
    requires localPlayer < |h.snapshots|
    ensures r.parentObject == h.parentObject && r.drawable == h.drawable && r.drawableGhost == h.drawableGhost
    ensures r.partitionData == (if sweep.Orphans? then None else h.partitionData)
    ensures r.snapshots == AllFreed(h.snapshots, trackAll, localPlayer)
  {
    h.(partitionData := if sweep.Orphans? then None else h.partitionData,
       snapshots := AllFreed(h.snapshots, trackAll, localPlayer))
  }

  /** What a ghost holds after the sweep has passed over it. */
  function AfterSweep(h: Held, sweep: Sweep, trackAll: bool, localPlayer: nat): Held
    requires localPlayer < |h.snapshots|
  {
    if Swept(h, sweep, localPlayer) then RemovedHeld(h, sweep, trackAll, localPlayer) else h
  }

  /** What each ghost of `xs` holds. */
  ghost function Helds(xs: seq<GhostObject>): (r: seq<Held>)
    reads xs
    ensures |r| == |xs| && forall j :: 0 <= j < |xs| ==> r[j] == xs[j].Payload()
  {
    if xs == [] then [] else Helds(xs[..|xs| - 1]) + [xs[|xs| - 1].Payload()]
  }

  /** The ghosts of `xs` a sweep keeps, in order, when they hold `hs`. */
  function Survivors(xs: seq<GhostObject>, hs: seq<Held>, sweep: Sweep, localPlayer: nat): seq<GhostObject>
    requires |hs| == |xs|
  {
    if xs == [] then []
    else
      var n := |xs| - 1;
      Survivors(xs[..n], hs[..n], sweep, localPlayer) + (if Swept(hs[n], sweep, localPlayer) then [] else [xs[n]])
  }

  /** The ghosts of `xs` a sweep removes, most recently removed first (the order the free
      list receives them in). */
  function Removed(xs: seq<GhostObject>, hs: seq<Held>, sweep: Sweep, localPlayer: nat): seq<GhostObject>
    requires |hs| == |xs|
  {
    if xs == [] then []
    else
      var n := |xs| - 1;
      (if Swept(hs[n], sweep, localPlayer) then [xs[n]] else []) + Removed(xs[..n], hs[..n], sweep, localPlayer)
  }

  /** Extending the walked prefix by one ghost extends the survivors or the removed
      ghosts by it, as the sweep selects it. */
  lemma SweepOneMore(xs: seq<GhostObject>, hs: seq<Held>, i: nat, sweep: Sweep, localPlayer: nat)
    requires i < |xs| == |hs|
    ensures Swept(hs[i], sweep, localPlayer) ==>
      && Survivors(xs[..i + 1], hs[..i + 1], sweep, localPlayer) == Survivors(xs[..i], hs[..i], sweep, localPlayer)
      && Removed(xs[..i + 1], hs[..i + 1], sweep, localPlayer) == [xs[i]] + Removed(xs[..i], hs[..i], sweep, localPlayer)
    ensures !Swept(hs[i], sweep, localPlayer) ==>
      && Survivors(xs[..i + 1], hs[..i + 1], sweep, localPlayer) == Survivors(xs[..i], hs[..i], sweep, localPlayer) + [xs[i]]
      && Removed(xs[..i + 1], hs[..i + 1], sweep, localPlayer) == Removed(xs[..i], hs[..i], sweep, localPlayer)
  {
    assert xs[..i + 1][..i] == xs[..i] && hs[..i + 1][..i] == hs[..i];
    assert Survivors(xs[..i], hs[..i], sweep, localPlayer) + [] == Survivors(xs[..i], hs[..i], sweep, localPlayer);
    assert [] + Removed(xs[..i], hs[..i], sweep, localPlayer) == Removed(xs[..i], hs[..i], sweep, localPlayer);
  }

  lemma AppendAssociates(a: seq<GhostObject>, b: seq<GhostObject>, c: seq<GhostObject>)
    ensures a + (b + c) == (a + b) + c
  {
  }

  function Reversed(xs: seq<GhostObject>): (r: seq<GhostObject>)
    ensures |r| == |xs|
  {
    if xs == [] then [] else [xs[|xs| - 1]] + Reversed(xs[..|xs| - 1])
  }

  /** The sweep that selects everything keeps nothing and removes every ghost, the last
      one first. */
  lemma {:induction false} SweepEverything(xs: seq<GhostObject>, hs: seq<Held>, localPlayer: nat)
    requires |hs| == |xs|
    ensures Survivors(xs, hs, Everything, localPlayer) == []
    ensures Removed(xs, hs, Everything, localPlayer) == Reversed(xs)
  {
    if xs != [] {
      var n := |xs| - 1;
      SweepEverything(xs[..n], hs[..n], localPlayer);
    }
  }

  /** Every ghost of the walked list ends up in exactly one of the two lists. */
  lemma {:induction false} SweepPartitions(xs: seq<GhostObject>, hs: seq<Held>, sweep: Sweep, localPlayer: nat)
    requires |hs| == |xs|
    ensures multiset(Survivors(xs, hs, sweep, localPlayer)) + multiset(Removed(xs, hs, sweep, localPlayer)) == multiset(xs)
  {
    if xs != [] {
      var n := |xs| - 1;
      SweepPartitions(xs[..n], hs[..n], sweep, localPlayer);
      var s, r := Survivors(xs[..n], hs[..n], sweep, localPlayer), Removed(xs[..n], hs[..n], sweep, localPlayer);
      assert xs == xs[..n] + [xs[n]];
      if Swept(hs[n], sweep, localPlayer) {
        assert Removed(xs, hs, sweep, localPlayer) == [xs[n]] + r;
        assert Survivors(xs, hs, sweep, localPlayer) == s;
      } else {
        assert Removed(xs, hs, sweep, localPlayer) == r;
        assert Survivors(xs, hs, sweep, localPlayer) == s + [xs[n]];
      }
    }
  }

  /** The walked ghosts are the only ones either list receives. */
  lemma SweepWithin(xs: seq<GhostObject>, hs: seq<Held>, sweep: Sweep, localPlayer: nat)
    requires |hs| == |xs|
    ensures forall x :: x in Survivors(xs, hs, sweep, localPlayer) ==> x in xs
    ensures forall x :: x in Removed(xs, hs, sweep, localPlayer) ==> x in xs
  {
    SweepPartitions(xs, hs, sweep, localPlayer);
    forall x | x in Survivors(xs, hs, sweep, localPlayer) ensures x in xs {
      assert x in multiset(xs);
    }
    forall x | x in Removed(xs, hs, sweep, localPlayer) ensures x in xs {
      assert x in multiset(xs);
    }
  }

  /** Both lists a sweep leaves behind stay inside any set holding the nodes it started
      from. */
  lemma SweepInFrame(xs: seq<GhostObject>, hs: seq<Held>, f: seq<GhostObject>, frame: set<GhostObject>,
                     sweep: Sweep, localPlayer: nat)
    requires |hs| == |xs|
    requires forall x :: x in xs + f ==> x in frame
    ensures forall k :: 0 <= k < |Survivors(xs, hs, sweep, localPlayer)| ==> Survivors(xs, hs, sweep, localPlayer)[k] in frame
    ensures forall k :: 0 <= k < |Removed(xs, hs, sweep, localPlayer) + f| ==> (Removed(xs, hs, sweep, localPlayer) + f)[k] in frame
  {
    SweepWithin(xs, hs, sweep, localPlayer);
    var s := Survivors(xs, hs, sweep, localPlayer);
    var r := Removed(xs, hs, sweep, localPlayer);
    forall k | 0 <= k < |s| ensures s[k] in frame {
      assert s[k] in s;
      assert s[k] in xs + f;
    }
    forall k | 0 <= k < |r + f| ensures (r + f)[k] in frame {
      if k < |r| {
        assert (r + f)[k] == r[k] && r[k] in r;
      } else {
        assert (r + f)[k] == f[k - |r|];
      }
      assert (r + f)[k] in xs + f;
    }
  }

  lemma DistinctInit(xs: seq<GhostObject>)
    requires Distinct(xs) && xs != []
    ensures Distinct(xs[..|xs| - 1]) && xs[|xs| - 1] !in xs[..|xs| - 1]
  {
    var n := |xs| - 1;
    forall a, b | 0 <= a < b < n ensures xs[..n][a] != xs[..n][b] {
      assert xs[..n][a] == xs[a] && xs[..n][b] == xs[b];
    }
    forall a | 0 <= a < n ensures xs[..n][a] != xs[n] {
      assert xs[..n][a] == xs[a];
    }
  }

  /** In a list without repeats, a ghost survives the sweep exactly when the sweep does
      not select what it holds, and is removed exactly when it does. */
  lemma {:induction false} SweepSelects(xs: seq<GhostObject>, hs: seq<Held>, sweep: Sweep, localPlayer: nat, j: nat)
    requires |hs| == |xs| && Distinct(xs) && j < |xs|
    ensures xs[j] in Survivors(xs, hs, sweep, localPlayer) <==> !Swept(hs[j], sweep, localPlayer)
    ensures xs[j] in Removed(xs, hs, sweep, localPlayer) <==> Swept(hs[j], sweep, localPlayer)
  {
    var n := |xs| - 1;
    DistinctInit(xs);
    if j < n {
      SweepSelects(xs[..n], hs[..n], sweep, localPlayer, j);
      assert xs[..n][j] == xs[j] && hs[..n][j] == hs[j];
      assert xs[j] != xs[n];
    } else {
      SweepWithin(xs[..n], hs[..n], sweep, localPlayer);
    }
  }

  /** The count `updateOrphanedObjects` makes for a ghost: one for each listed player,
      and one for the local player, whose chain is not empty. It is 0 exactly when the
      ghost holds no snapshot any of them still remembers. The slots are read as they
      stand: the shroud update the source makes before each read, which can free the
      snapshot, belongs to the partition manager and is not modelled. */
  method CountStoredSnapshots(g: GhostObject, players: seq<nat>, localPlayer: nat) returns (n: nat)
    requires forall q :: 0 <= q < |players| ==> players[q] < |g.parentSnapshots|
    requires localPlayer < |g.parentSnapshots|
    ensures n == 0 <==> !HasStoredSnapshot(g.parentSnapshots, players, localPlayer)
    ensures n <= |players| + 1
  {
    n := 0;
    var k := 0;
    while k < |players|
      invariant 0 <= k <= |players| && n <= k
      invariant n == 0 <==> forall q :: 0 <= q < k ==> g.parentSnapshots[players[q]] == []
    {
      if g.parentSnapshots[players[k]] != [] {
        n := n + 1;
      }
      k := k + 1;
    }
    if g.parentSnapshots[localPlayer] != [] {
      n := n + 1;
    }
  }

  class GhostObjectManager {
    var freeModules: GhostObject?
    var usedModules: GhostObject?
    var lockGhostObjects: bool
    var saveLockGhostObjects: bool
    var localPlayer: nat
    var trackAllPlayers: bool
    /** The used and free lists, front first. */
    ghost var used: seq<GhostObject>
    ghost var free: seq<GhostObject>

    ghost predicate Valid()
      reads this, used, free
    {
      Linked(used, usedModules) && Linked(free, freeModules)
      && Distinct(used) && Distinct(free) && Disjoint(used, free)
      && localPlayer < MaxPlayerCount
      && (forall g :: g in used ==> |g.parentSnapshots| == MaxPlayerCount)
      && (forall g :: g in free ==> |g.parentSnapshots| == MaxPlayerCount)
    }

    /** Both lists empty, nothing locked. */
    constructor (trackAll: bool, local: nat)
      requires local < MaxPlayerCount
      ensures Valid() && used == [] && free == []
      ensures trackAllPlayers == trackAll && localPlayer == local
      ensures !lockGhostObjects && !saveLockGhostObjects
    {
      freeModules := null;
      usedModules := null;
      lockGhostObjects := false;
      saveLockGhostObjects := false;
      localPlayer := local;
      trackAllPlayers := trackAll;
      used := [];
      free := [];
    }

    /** The used-list half of `removeGhostObject`: the ghost at `k` is unlinked, its
      neighbours are joined, and the head moves on when it was the head. */
    method Unlink(g: GhostObject, ghost k: nat)
      requires Linked(used, usedModules) && Linked(free, freeModules)
      requires Distinct(used) && Disjoint(used, free)
      requires k < |used| && used[k] == g
      modifies this, used
      ensures used == old(used)[..k] + old(used)[k + 1..] && free == old(free)
      ensures Linked(used, usedModules) && Linked(free, freeModules)
      ensures freeModules == old(freeModules)
      ensures localPlayer == old(localPlayer) && trackAllPlayers == old(trackAllPlayers)
      ensures lockGhostObjects == old(lockGhostObjects) && saveLockGhostObjects == old(saveLockGhostObjects)
      ensures forall x :: x in old(used) ==> x.Payload() == old(x.Payload())
    {
      ghost var u := used;
      var nx := g.nextSystem;
      var pv := g.prevSystem;
      assert nx == (if k + 1 < |u| then u[k + 1] else null);
      assert pv == (if k > 0 then u[k - 1] else null);
      if nx != null {
        nx.prevSystem := pv;
      }
      if pv != null {
        pv.nextSystem := nx;
      } else {
        usedModules := nx;
      }
      used := u[..k] + u[k + 1..];
      forall i | 0 <= i < |free|
        ensures free[i].nextSystem == old(free[i].nextSystem) && free[i].prevSystem == old(free[i].prevSystem)
      {
        assert free[i] !in u;
      }
      forall i | 0 <= i < |used|
        ensures used[i].nextSystem == (if i + 1 < |used| then used[i + 1] else null)
        ensures used[i].prevSystem == (if i > 0 then used[i - 1] else null)
      {
        if i < k {
          assert used[i] == u[i];
        } else {
          assert used[i] == u[i + 1];
        }
        if i + 1 < |used| {
          if i + 1 < k {
            assert used[i + 1] == u[i + 1];
          } else {
            assert used[i + 1] == u[i + 2];
          }
        }
        if i > 0 {
          if i - 1 < k {
            assert used[i - 1] == u[i - 1];
          } else {
            assert used[i - 1] == u[i];
          }
        }
      }
    }

    /** The free-list half of `removeGhostObject`: the ghost becomes the free-list head. */
    method PushFree(g: GhostObject)
      requires Linked(used, usedModules) && Linked(free, freeModules)
      requires Distinct(used) && Distinct(free) && Disjoint(used, free)
      requires g !in used && g !in free
      requires localPlayer < MaxPlayerCount
      requires forall x :: x in used ==> |x.parentSnapshots| == MaxPlayerCount
      requires forall x :: x in free ==> |x.parentSnapshots| == MaxPlayerCount
      requires |g.parentSnapshots| == MaxPlayerCount
      modifies this, g, free
      ensures Valid()
      ensures free == [g] + old(free) && used == old(used) && usedModules == old(usedModules)
      ensures localPlayer == old(localPlayer) && trackAllPlayers == old(trackAllPlayers)
      ensures lockGhostObjects == old(lockGhostObjects) && saveLockGhostObjects == old(saveLockGhostObjects)
      ensures forall x :: x in old(used) || x in old(free) || x == g ==> x.Payload() == old(x.Payload())
    {
      LinkFreeHead(g);
      DistinctCons(g, free);
      free := [g] + free;
    }

    /** The link writes of `PushFree`: `g` goes in front of the free list's head. */
    method LinkFreeHead(g: GhostObject)
      requires Linked(used, usedModules) && Linked(free, freeModules)
      requires Distinct(free) && Disjoint(used, free) && g !in used && g !in free
      modifies this`freeModules, g, free
      ensures Linked(used, usedModules) && Linked([g] + free, freeModules)
      ensures forall x :: x in used || x in free || x == g ==> x.Payload() == old(x.Payload())
    {
      g.prevSystem := null;
      g.nextSystem := freeModules;
      if freeModules != null {
        freeModules.prevSystem := g;
      }
      freeModules := g;
      forall i | 0 <= i < |used|
        ensures used[i].nextSystem == old(used[i].nextSystem) && used[i].prevSystem == old(used[i].prevSystem)
      {
        assert used[i] !in free;
      }
      ghost var f := [g] + free;
      forall i | 0 <= i < |f|
        ensures f[i].nextSystem == (if i + 1 < |f| then f[i + 1] else null)
        ensures f[i].prevSystem == (if i > 0 then f[i - 1] else null)
      {
        if i > 0 {
          assert f[i] == free[i - 1];
        }
      }
    }

    /** `removeGhostObject`: nothing for no ghost; otherwise its snapshots are freed, it is
      unlinked from the used list and pushed on the free list. */
    method RemoveGhostObject(g: GhostObject?)
      requires Valid()
      requires g == null || g in used
      modifies this, used, free
      ensures Valid()
      ensures g == null ==> used == old(used) && free == old(free)
      ensures g != null ==> free == [g] + old(free)
      ensures g != null ==> forall k :: 0 <= k < |old(used)| && old(used)[k] == g ==> used == old(used)[..k] + old(used)[k + 1..]
      ensures g != null ==> g.Payload() == old(g.Payload()).(snapshots := AllFreed(old(g.parentSnapshots), trackAllPlayers, localPlayer))
      ensures forall x :: (x in old(used) || x in old(free)) && x != g ==> x.Payload() == old(x.Payload())
      ensures localPlayer == old(localPlayer) && trackAllPlayers == old(trackAllPlayers)
      ensures lockGhostObjects == old(lockGhostObjects) && saveLockGhostObjects == old(saveLockGhostObjects)
    {
      if g == null {
        return;
      }
      ghost var k :| 0 <= k < |used| && used[k] == g;
      ghost var u := used;
      g.FreeAllSnapShots(trackAllPlayers, localPlayer);
      assert forall x :: x in u ==> |x.parentSnapshots| == MaxPlayerCount;
      label Unlinking:
      Unlink(g, k);
      DistinctWithout(u, k);
      forall x | x in used ensures |x.parentSnapshots| == MaxPlayerCount {
        assert x in u && x.Payload() == old@Unlinking(x.Payload());
      }
      PushFree(g);
      forall k' | 0 <= k' < |u| && u[k'] == g ensures used == u[..k'] + u[k' + 1..] {
        assert k' == k;
      }
    }

    /** The free-list half of `addGhostObject`: the free-list head, if there is one, is
      unlinked; the head has no predecessor, so the list's head moves to its successor. */
    method PopFree() returns (g: GhostObject?)
      requires Linked(used, usedModules) && Linked(free, freeModules)
      requires Distinct(free) && Disjoint(used, free)
      modifies this, free
      ensures old(free) == [] ==> g == null && free == []
      ensures old(free) != [] ==> g == old(free)[0] && free == old(free)[1..]
      ensures Linked(used, usedModules) && Linked(free, freeModules)
      ensures used == old(used) && usedModules == old(usedModules)
      ensures localPlayer == old(localPlayer) && trackAllPlayers == old(trackAllPlayers)
      ensures lockGhostObjects == old(lockGhostObjects) && saveLockGhostObjects == old(saveLockGhostObjects)
      ensures forall x :: x in old(free) ==> x.Payload() == old(x.Payload())
    {
      g := freeModules;
      if g != null {
        ghost var f := free;
        var nx := g.nextSystem;
        assert nx == (if 1 < |f| then f[1] else null);
        assert g.prevSystem == null;
        if nx != null {
          nx.prevSystem := null;
        }
        freeModules := nx;
        free := f[1..];
        forall i | 0 <= i < |used|
          ensures used[i].nextSystem == old(used[i].nextSystem) && used[i].prevSystem == old(used[i].prevSystem)
        {
          assert used[i] !in f;
        }
        forall i | 0 <= i < |free|
          ensures free[i].nextSystem == (if i + 1 < |free| then free[i + 1] else null)
          ensures free[i].prevSystem == (if i > 0 then free[i - 1] else null)
        {
          assert free[i] == f[i + 1];
          if i > 0 {
            assert f[i + 1] != f[1];
          }
        }
      }
    }

    /** The used-list half of `addGhostObject`: the ghost becomes the used-list head. */
    method PushUsed(g: GhostObject)
      requires Linked(used, usedModules) && Linked(free, freeModules)
      requires Distinct(used) && Distinct(free) && Disjoint(used, free)
      requires g !in used && g !in free
      requires localPlayer < MaxPlayerCount
      requires forall x :: x in used ==> |x.parentSnapshots| == MaxPlayerCount
      requires forall x :: x in free ==> |x.parentSnapshots| == MaxPlayerCount
      requires |g.parentSnapshots| == MaxPlayerCount
      modifies this, g, used
      ensures Valid()
      ensures used == [g] + old(used) && free == old(free) && freeModules == old(freeModules)
      ensures localPlayer == old(localPlayer) && trackAllPlayers == old(trackAllPlayers)
      ensures lockGhostObjects == old(lockGhostObjects) && saveLockGhostObjects == old(saveLockGhostObjects)
      ensures forall x :: x in old(used) || x in old(free) || x == g ==> x.Payload() == old(x.Payload())
    {
      LinkUsedHead(g);
      DistinctCons(g, used);
      used := [g] + used;
    }

    /** The link writes of `PushUsed`: `g` goes in front of the used list's head. */
    method LinkUsedHead(g: GhostObject)
      requires Linked(used, usedModules) && Linked(free, freeModules)
      requires Distinct(used) && Disjoint(used, free) && g !in used && g !in free
      modifies this`usedModules, g, used
      ensures Linked([g] + used, usedModules) && Linked(free, freeModules)
      ensures forall x :: x in used || x in free || x == g ==> x.Payload() == old(x.Payload())
    {
      g.prevSystem := null;
      g.nextSystem := usedModules;
      if usedModules != null {
        usedModules.prevSystem := g;
      }
      usedModules := g;
      forall i | 0 <= i < |free|
        ensures free[i].nextSystem == old(free[i].nextSystem) && free[i].prevSystem == old(free[i].prevSystem)
      {
        assert free[i] !in used;
      }
      ghost var u := [g] + used;
      forall i | 0 <= i < |u|
        ensures u[i].nextSystem == (if i + 1 < |u| then u[i + 1] else null)
        ensures u[i].prevSystem == (if i > 0 then u[i - 1] else null)
      {
        if i > 0 {
          assert u[i] == used[i - 1];
        }
      }
    }

    /** `addGhostObject`: while adding is locked, nothing; otherwise the free-list head
      (or a new ghost when the free list is empty) moves to the front of the used list
      and takes the object and partition data, with no drawable and itself as the
      drawable info's ghost. A reused ghost keeps the snapshots it still holds. */
    method AddGhostObject(parent: Option<ObjectId>, pd: Option<PartitionId>) returns (g: GhostObject?)
      requires Valid()
      modifies this, used, free
      ensures Valid()
      ensures localPlayer == old(localPlayer) && trackAllPlayers == old(trackAllPlayers)
      ensures lockGhostObjects == old(lockGhostObjects) && saveLockGhostObjects == old(saveLockGhostObjects)
      ensures old(lockGhostObjects || saveLockGhostObjects) ==> g == null && used == old(used) && free == old(free)
      ensures !old(lockGhostObjects || saveLockGhostObjects) ==> g != null && used == [g] + old(used)
      ensures !old(lockGhostObjects || saveLockGhostObjects) && old(free) == [] ==>
        g != null && fresh(g) && free == [] && g.parentSnapshots == NoSnapshots()
      ensures !old(lockGhostObjects || saveLockGhostObjects) && old(free) != [] ==>
        g == old(free[0]) && free == old(free[1..]) && g.parentSnapshots == old(free[0].parentSnapshots)
      ensures g != null ==> g.parentObject == parent && g.partitionData == pd && g.drawable == None && g.drawableGhost == g
      ensures forall x :: (x in old(used) || x in old(free)) && x != g ==> x.Payload() == old(x.Payload())
    {
      if lockGhostObjects || saveLockGhostObjects {
        return null;
      }
      ghost var f := free;
      var mod := PopFree();
      if mod == null {
        mod := new GhostObject();
      } else {
        assert mod in f;
      }
      forall x | x in free ensures |x.parentSnapshots| == MaxPlayerCount {
        assert x in f;
      }
      PushUsed(mod);
      label Attaching:
      Attach(mod, parent, pd);
      forall x | (x in old(used) || x in old(free)) && x != mod ensures x.Payload() == old(x.Payload()) {
        assert x.Payload() == old@Attaching(x.Payload());
      }
      g := mod;
    }

    /** The fields `addGhostObject` gives the ghost it hands out. */
    method Attach(g: GhostObject, parent: Option<ObjectId>, pd: Option<PartitionId>)
      requires Valid() && g in used
      modifies g
      ensures Valid()
      ensures g.Payload() == old(g.Payload()).(parentObject := parent, partitionData := pd, drawable := None, drawableGhost := g)
    {
      g.parentObject := parent;
      g.drawable := None;
      g.drawableGhost := g;
      g.partitionData := pd;
    }

    /** The test the walk below makes of one ghost. */
    method Selects(mod: GhostObject, sweep: Sweep) returns (removed: bool)
      requires sweep.Orphans? ==> forall q :: 0 <= q < |sweep.players| ==> sweep.players[q] < |mod.parentSnapshots|
      requires localPlayer < |mod.parentSnapshots|
      ensures removed == Swept(mod.Payload(), sweep, localPlayer)
    {
      removed := false;
      match sweep {
        case Parentless =>
          removed := mod.parentObject.None?;
        case Everything =>
          removed := true;
        case Orphans(players) =>
          if mod.parentObject.None? {
            var n := CountStoredSnapshots(mod, players, localPlayer);
            removed := n == 0;
          }
      }
    }

    /** The orphan sweep's `friend_setPartitionData(NULL)` on a ghost in the pool. */
    method ClearPartitionData(g: GhostObject)
      requires Valid() && g in used
      modifies g
      ensures Valid()
      ensures g.Payload() == old(g.Payload()).(partitionData := None)
    {
      g.partitionData := None;
    }

    /** A ghost the walk below selects: the orphan sweep clears its partition data, then
      it is removed. */
    method SweepOut(mod: GhostObject, sweep: Sweep, ghost kept: seq<GhostObject>, ghost rest: seq<GhostObject>)
      requires Valid()
      requires used == kept + [mod] + rest
      modifies this, used, free
      ensures Valid()
      ensures used == kept + rest && free == [mod] + old(free)
      ensures localPlayer == old(localPlayer) && trackAllPlayers == old(trackAllPlayers)
      ensures lockGhostObjects == old(lockGhostObjects) && saveLockGhostObjects == old(saveLockGhostObjects)
      ensures forall x: GhostObject :: old(allocated(x)) && x != mod ==> x.Payload() == old(x.Payload())
      ensures mod.Payload() == RemovedHeld(old(mod.Payload()), sweep, trackAllPlayers, localPlayer)
    {
      ghost var u := used;
      assert u[|kept|] == mod && u[..|kept|] == kept && u[|kept| + 1..] == rest;
      ghost var f := free;
      if sweep.Orphans? {
        ClearPartitionData(mod);
      }
      label Removing:
      RemoveGhostObject(mod);
      assert used == u[..|kept|] + u[|kept| + 1..];
      forall x: GhostObject | old(allocated(x)) && x != mod ensures x.Payload() == old(x.Payload()) {
        if x in u || x in f {
          assert x.Payload() == old@Removing(x.Payload());
        }
      }
    }

    /** One ghost of the walk below: its successor is read first, then the ghost is
      removed when the sweep selects it. */
    method SweepStep(mod: GhostObject, sweep: Sweep, ghost kept: seq<GhostObject>, ghost rest: seq<GhostObject>)
      returns (removed: bool, next: GhostObject?)
      requires Valid()
      requires sweep.Orphans? ==> forall q :: 0 <= q < |sweep.players| ==> sweep.players[q] < MaxPlayerCount
      requires used == kept + [mod] + rest
      modifies this, used, free
      ensures Valid()
      ensures next == if rest == [] then null else rest[0]
      ensures removed == Swept(old(mod.Payload()), sweep, localPlayer)
      ensures removed ==> used == kept + rest && free == [mod] + old(free)
      ensures !removed ==> used == old(used) && free == old(free)
      ensures localPlayer == old(localPlayer) && trackAllPlayers == old(trackAllPlayers)
      ensures lockGhostObjects == old(lockGhostObjects) && saveLockGhostObjects == old(saveLockGhostObjects)
      ensures forall x: GhostObject :: old(allocated(x)) && x != mod ==> x.Payload() == old(x.Payload())
      ensures mod.Payload() == AfterSweep(old(mod.Payload()), sweep, trackAllPlayers, localPlayer)
    {
      NextOf(used, usedModules, kept, mod, rest);
      next := mod.nextSystem;
      assert mod in used;
      removed := Selects(mod, sweep);
      if removed {
        SweepOut(mod, sweep, kept, rest);
      }
    }

    /** The state of the walk below after its first `i` ghosts of `u`, which held `hs`
      when the walk began; `f` was the free list then. */
    ghost predicate Progress(u: seq<GhostObject>, f: seq<GhostObject>, hs: seq<Held>, i: nat, sweep: Sweep)
      reads this, u, f
    {
      && (forall x :: x in used ==> x in u)
      && (forall x :: x in free ==> x in u || x in f)
      && localPlayer < MaxPlayerCount && |hs| == |u| && i <= |u| && Distinct(u)
      && (forall j :: 0 <= j < |u| ==> |hs[j].snapshots| == MaxPlayerCount)
      && used == Survivors(u[..i], hs[..i], sweep, localPlayer) + u[i..]
      && free == Removed(u[..i], hs[..i], sweep, localPlayer) + f
      && (forall j :: 0 <= j < i ==> u[j].Payload() == AfterSweep(hs[j], sweep, trackAllPlayers, localPlayer))
      && (forall j :: i <= j < |u| ==> u[j].Payload() == hs[j])
    }

    /** Before the walk below nothing is walked. */
    lemma StartWalk(sweep: Sweep)
      requires Distinct(used) && localPlayer < MaxPlayerCount
      requires forall g :: g in used ==> |g.parentSnapshots| == MaxPlayerCount
      ensures Progress(used, free, Helds(used), 0, sweep)
    {
      var hs := Helds(used);
      assert used[..0] == [] && hs[..0] == [] && used[0..] == used;
      assert Survivors([], [], sweep, localPlayer) == [] && Removed([], [], sweep, localPlayer) == [];
      forall j | 0 <= j < |used| ensures |hs[j].snapshots| == MaxPlayerCount {
        assert used[j] in used;
      }
    }

    /** After the walk below has passed every ghost, the lists and the ghosts are as the
      sweep leaves them. */
    lemma EndWalk(u: seq<GhostObject>, f: seq<GhostObject>, hs: seq<Held>, sweep: Sweep)
      requires Progress(u, f, hs, |u|, sweep)
      ensures |hs| == |u| && localPlayer < MaxPlayerCount
      ensures forall j :: 0 <= j < |u| ==> |hs[j].snapshots| == MaxPlayerCount
      ensures used == Survivors(u, hs, sweep, localPlayer)
      ensures free == Removed(u, hs, sweep, localPlayer) + f
      ensures forall j :: 0 <= j < |u| ==> u[j].Payload() == AfterSweep(hs[j], sweep, trackAllPlayers, localPlayer)
    {
      assert u[..|u|] == u && hs[..|u|] == hs && u[|u|..] == [];
    }

    /** One step of the walk below: the `i`-th ghost is tested and removed when selected,
      and the walk moves on to its old successor. */
    method Advance(mod: GhostObject, sweep: Sweep, ghost u: seq<GhostObject>, ghost f: seq<GhostObject>, ghost hs: seq<Held>, ghost i: nat)
      returns (next: GhostObject?)
      requires Valid() && Progress(u, f, hs, i, sweep) && i < |u| && mod == u[i]
      requires sweep.Orphans? ==> forall q :: 0 <= q < |sweep.players| ==> sweep.players[q] < MaxPlayerCount
      modifies this, u, f
      ensures Valid() && Progress(u, f, hs, i + 1, sweep)
      ensures next == if i + 1 < |u| then u[i + 1] else null
      ensures localPlayer == old(localPlayer) && trackAllPlayers == old(trackAllPlayers)
      ensures lockGhostObjects == old(lockGhostObjects) && saveLockGhostObjects == old(saveLockGhostObjects)
      ensures forall x: GhostObject :: old(allocated(x)) && x != mod ==> x.Payload() == old(x.Payload())
    {
      ghost var kept := Survivors(u[..i], hs[..i], sweep, localPlayer);
      ghost var gone := Removed(u[..i], hs[..i], sweep, localPlayer);
      assert u[i..] == [u[i]] + u[i + 1..];
      forall k | 0 <= k < |used| ensures exists j :: 0 <= j < |u| && u[j] == used[k] {
        assert used[k] in u;
      }
      forall k | 0 <= k < |free|
        ensures (exists j :: 0 <= j < |u| && u[j] == free[k]) || (exists j :: 0 <= j < |f| && f[j] == free[k])
      {
        assert free[k] in u || free[k] in f;
      }
      var removed;
      removed, next := SweepStep(mod, sweep, kept, u[i + 1..]);
      SweepOneMore(u, hs, i, sweep, localPlayer);
      if removed {
        AppendAssociates([u[i]], gone, f);
      } else {
        AppendAssociates(kept, [u[i]], u[i + 1..]);
      }
    }

    /** The walk `reset` and `updateOrphanedObjects` make over the used list, front to
      back: each ghost the sweep selects is removed (the orphan sweep first clears its
      partition data), so the used list keeps the others in order and the free list
      receives the removed ones, the last one removed at its head. */
    method RemoveSwept(sweep: Sweep, ghost frame: set<GhostObject>)
      requires Valid()
      requires sweep.Orphans? ==> forall q :: 0 <= q < |sweep.players| ==> sweep.players[q] < MaxPlayerCount
      requires forall k :: 0 <= k < |used| ==> used[k] in frame
      requires forall k :: 0 <= k < |free| ==> free[k] in frame
      modifies this, frame
      ensures Valid()
      ensures used == Survivors(old(used), old(Helds(used)), sweep, localPlayer)
      ensures free == Removed(old(used), old(Helds(used)), sweep, localPlayer) + old(free)
      ensures localPlayer == old(localPlayer) && trackAllPlayers == old(trackAllPlayers)
      ensures lockGhostObjects == old(lockGhostObjects) && saveLockGhostObjects == old(saveLockGhostObjects)
      ensures forall x :: x in old(free) ==> x.Payload() == old(x.Payload())
      ensures forall j :: 0 <= j < |old(used)| ==>
        old(used)[j].Payload() == AfterSweep(old(Helds(used))[j], sweep, trackAllPlayers, localPlayer)
      ensures forall x :: x in old(used) ==> x.Payload() == AfterSweep(old(x.Payload()), sweep, trackAllPlayers, localPlayer)
    {
      ghost var u := used;
      ghost var f := free;
      ghost var hs := Helds(u);
      var mod := usedModules;
      ghost var i := 0;
      StartWalk(sweep);
      while mod != null
        invariant Valid() && Progress(u, f, hs, i, sweep)
        invariant mod == (if i < |u| then u[i] else null)
        invariant localPlayer == old(localPlayer) && trackAllPlayers == old(trackAllPlayers)
        invariant lockGhostObjects == old(lockGhostObjects) && saveLockGhostObjects == old(saveLockGhostObjects)
        invariant forall x :: x in f ==> x.Payload() == old(x.Payload())
        decreases |u| - i
      {
        mod := Advance(mod, sweep, u, f, hs, i);
        i := i + 1;
      }
      EndWalk(u, f, hs, sweep);
      forall x | x in u ensures x.Payload() == AfterSweep(old(x.Payload()), sweep, trackAllPlayers, localPlayer) {
        var j :| 0 <= j < |u| && u[j] == x;
      }
    }

    /** `updateOrphanedObjects`: every ghost without a parent object that neither a
      listed player nor the local player still remembers is removed, its partition data
      cleared and its snapshots freed; every other ghost stays where it was. What a
      player remembers is read before any shroud update (see `CountStoredSnapshots`). */
    method UpdateOrphanedObjects(players: seq<nat>)
      requires Valid()
      requires forall q :: 0 <= q < |players| ==> players[q] < MaxPlayerCount
      modifies this, used, free
      ensures Valid()
      ensures used == Survivors(old(used), old(Helds(used)), Orphans(players), localPlayer)
      ensures free == Removed(old(used), old(Helds(used)), Orphans(players), localPlayer) + old(free)
      ensures localPlayer == old(localPlayer) && trackAllPlayers == old(trackAllPlayers)
      ensures lockGhostObjects == old(lockGhostObjects) && saveLockGhostObjects == old(saveLockGhostObjects)
      ensures forall x :: x in old(free) ==> x.Payload() == old(x.Payload())
      ensures forall j :: 0 <= j < |old(used)| ==>
        old(used)[j].Payload() == AfterSweep(old(Helds(used))[j], Orphans(players), trackAllPlayers, localPlayer)
    {
      RemoveSwept(Orphans(players), set x | x in used + free);
    }

    /** The second walk of `reset`: every ghost still on the used list is removed, so the
      used list ends empty and the free list receives them all, the last one at its head. */
    method RemoveRemaining(ghost frame: set<GhostObject>)
      requires Valid()
      requires forall k :: 0 <= k < |used| ==> used[k] in frame
      requires forall k :: 0 <= k < |free| ==> free[k] in frame
      modifies this, frame
      ensures Valid() && used == []
      ensures free == Reversed(old(used)) + old(free)
      ensures localPlayer == old(localPlayer) && trackAllPlayers == old(trackAllPlayers)
      ensures lockGhostObjects == old(lockGhostObjects) && saveLockGhostObjects == old(saveLockGhostObjects)
      ensures forall x :: x in old(free) ==> x.Payload() == old(x.Payload())
      ensures forall x :: x in old(used) ==> x.Payload() == RemovedHeld(old(x.Payload()), Everything, trackAllPlayers, localPlayer)
    {
      SweepEverything(used, Helds(used), localPlayer);
      RemoveSwept(Everything, frame);
    }

    /** `reset`: the ghosts without a parent object are removed first, then everything
      left; the used list ends empty and the free list receives the ghosts with a parent
      object, the last one at its head, ahead of the parentless ones, again the last one
      first. Every ghost of the used list has its snapshots freed on the way. */
    method Reset()
      requires Valid()
      modifies this, used, free
      ensures Valid() && used == []
      ensures free == Reversed(Survivors(old(used), old(Helds(used)), Parentless, localPlayer))
        + Removed(old(used), old(Helds(used)), Parentless, localPlayer) + old(free)
      ensures localPlayer == old(localPlayer) && trackAllPlayers == old(trackAllPlayers)
      ensures lockGhostObjects == old(lockGhostObjects) && saveLockGhostObjects == old(saveLockGhostObjects)
      ensures forall x :: x in old(free) ==> x.Payload() == old(x.Payload())
      ensures forall x :: x in old(used) ==> x.Payload() == RemovedHeld(old(x.Payload()), Everything, trackAllPlayers, localPlayer)
    {
      ghost var u := used;
      ghost var f := free;
      ghost var hs := Helds(u);
      ghost var frame := set x | x in u + f;
      RemoveSwept(Parentless, frame);
      SweepInFrame(u, hs, f, frame, Parentless, localPlayer);
      ghost var kept := used;
      ghost var gone := free;
      label Mid:
      RemoveRemaining(frame);
      AppendAssociates(Reversed(kept), Removed(u, hs, Parentless, localPlayer), f);
      forall x | x in u ensures x.Payload() == RemovedHeld(old(x.Payload()), Everything, trackAllPlayers, localPlayer) {
        var j :| 0 <= j < |u| && u[j] == x;
        SweepSelects(u, hs, Parentless, localPlayer, j);
        if Swept(hs[j], Parentless, localPlayer) {
          // Removed by the first walk: it waits on the free list while the second one runs.
          assert x in gone;
        } else {
          // Kept by the first walk, unchanged, and removed by the second.
          assert x in kept && old@Mid(x.Payload()) == old(x.Payload());
        }
      }
    }
  }
}
