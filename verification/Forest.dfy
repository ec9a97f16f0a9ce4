/** The stored blocks with their depths, and the path from the genesis block to each of them. */
module Forests {
  import opened Types

  datatype Forest = Forest(allBlocks: map<BlockId, BlockNode>, blockDepth: map<BlockId, nat>)

  function Parent(fo: Forest, id: BlockId): BlockId
    requires id in fo.allBlocks
  {
    fo.allBlocks[id].header.parent
  }

  /** Ids key their own blocks, exactly the stored blocks have a depth, and every block but the
      genesis block has a stored parent one level up. */
  ghost predicate Rooted(fo: Forest) {
    && ROOT_ID in fo.allBlocks && fo.allBlocks[ROOT_ID] == GenesisBlock()
    && fo.blockDepth.Keys == fo.allBlocks.Keys
    && fo.blockDepth[ROOT_ID] == 0
    && (forall id | id in fo.allBlocks :: fo.allBlocks[id].header.blockId == id)
    && (forall id {:trigger Parent(fo, id)} | id in fo.allBlocks && id != ROOT_ID ::
          Parent(fo, id) in fo.allBlocks && fo.blockDepth[id] == fo.blockDepth[Parent(fo, id)] + 1)
  }

  /** The blocks from the genesis block down to `id`. */
  ghost function Path(fo: Forest, id: BlockId): (path: seq<BlockNode>)
    requires Rooted(fo) && id in fo.allBlocks
    ensures |path| == fo.blockDepth[id] + 1
    ensures path[0] == GenesisBlock()
    ensures path[fo.blockDepth[id]] == fo.allBlocks[id]
    decreases fo.blockDepth[id]
  {
    if id == ROOT_ID then [fo.allBlocks[ROOT_ID]]
    else Path(fo, Parent(fo, id)) + [fo.allBlocks[id]]
  }

  /** `a` is `id` or one of its ancestors. */
  ghost predicate OnPath(fo: Forest, a: BlockId, id: BlockId)
    requires Rooted(fo) && a in fo.allBlocks && id in fo.allBlocks
  {
    Path(fo, a) <= Path(fo, id)
  }

  ghost predicate StrictlyAbove(fo: Forest, a: BlockId, id: BlockId)
    requires Rooted(fo) && a in fo.allBlocks && id in fo.allBlocks
  {
    a != id && OnPath(fo, a, id)
  }

  lemma PathDetermines(fo: Forest, a: BlockId, b: BlockId)
    requires Rooted(fo) && a in fo.allBlocks && b in fo.allBlocks
    requires Path(fo, a) == Path(fo, b)
    ensures a == b
  {
    assert fo.allBlocks[a].header.blockId == a && fo.allBlocks[b].header.blockId == b;
  }

  lemma SamePath(fo: Forest, a: BlockId, f: BlockId)
    requires Rooted(fo) && a in fo.allBlocks && f in fo.allBlocks
    requires OnPath(fo, a, f) && fo.blockDepth[f] <= fo.blockDepth[a]
    ensures a == f
  {
    assert Path(fo, a) == Path(fo, f);
    PathDetermines(fo, a, f);
  }

  lemma RootAboveAll(fo: Forest, id: BlockId)
    requires Rooted(fo) && id in fo.allBlocks
    ensures OnPath(fo, ROOT_ID, id)
  {
    assert Path(fo, ROOT_ID) == [GenesisBlock()];
    assert Path(fo, id)[..1] == [GenesisBlock()];
  }

  /** Every block of a path is stored, at the depth of its index, and its own path is the part up to it. */
  lemma {:induction false} PathPrefix(fo: Forest, id: BlockId, i: nat)
    requires Rooted(fo) && id in fo.allBlocks && i <= fo.blockDepth[id]
    ensures var a := Path(fo, id)[i].header.blockId;
            && a in fo.allBlocks && fo.allBlocks[a] == Path(fo, id)[i]
            && fo.blockDepth[a] == i
            && Path(fo, a) == Path(fo, id)[..i + 1]
    decreases fo.blockDepth[id]
  {
    assert fo.allBlocks[id].header.blockId == id;
    if i == fo.blockDepth[id] {
      assert Path(fo, id)[..i + 1] == Path(fo, id);
    } else {
      var p := Parent(fo, id);
      PathPrefix(fo, p, i);
      assert Path(fo, id) == Path(fo, p) + [fo.allBlocks[id]];
      assert Path(fo, id)[..i + 1] == Path(fo, p)[..i + 1];
    }
  }

  lemma AncestorAt(fo: Forest, a: BlockId, id: BlockId)
    requires Rooted(fo) && a in fo.allBlocks && id in fo.allBlocks
    ensures OnPath(fo, a, id)
            <==> fo.blockDepth[a] <= fo.blockDepth[id] && Path(fo, id)[fo.blockDepth[a]] == fo.allBlocks[a]
    ensures StrictlyAbove(fo, a, id) ==> fo.blockDepth[a] < fo.blockDepth[id]
    ensures StrictlyAbove(fo, a, id) ==> OnPath(fo, a, Parent(fo, id))
  {
    if fo.blockDepth[a] <= fo.blockDepth[id] {
      PathPrefix(fo, id, fo.blockDepth[a]);
      assert fo.allBlocks[a].header.blockId == a;
    }
    if StrictlyAbove(fo, a, id) {
      if Path(fo, a) == Path(fo, id) {
        PathDetermines(fo, a, id);
      }
      assert id != ROOT_ID;
      assert Path(fo, id) == Path(fo, Parent(fo, id)) + [fo.allBlocks[id]];
    }
  }

  /** The block below `f` on the way to a strict descendant `p`. */
  lemma ChildTowards(fo: Forest, f: BlockId, p: BlockId)
    requires Rooted(fo) && f in fo.allBlocks && p in fo.allBlocks
    requires Path(fo, f) <= Path(fo, p) && fo.blockDepth[f] < fo.blockDepth[p]
    ensures var g := Path(fo, p)[fo.blockDepth[f] + 1];
            && g.header.blockId in fo.allBlocks && fo.allBlocks[g.header.blockId] == g
            && Path(fo, g.header.blockId) == Path(fo, f) + [g]
            && Path(fo, g.header.blockId) <= Path(fo, p)
            && g.header.blockId != ROOT_ID && Parent(fo, g.header.blockId) == f
  {
    var df, pp := fo.blockDepth[f], Path(fo, p);
    PathPrefix(fo, p, df + 1);
    var c := pp[df + 1].header.blockId;
    assert pp[..df + 2] == pp[..df + 1] + [pp[df + 1]];
    assert Path(fo, c) == Path(fo, Parent(fo, c)) + [fo.allBlocks[c]];
    assert Path(fo, Parent(fo, c)) == Path(fo, c)[..df + 1];
    PathDetermines(fo, Parent(fo, c), f);
  }

  // ----- adding a block -----

  function Extend(fo: Forest, b: BlockNode): Forest
    requires b.header.parent in fo.blockDepth
  {
    Forest(fo.allBlocks[b.header.blockId := b],
           fo.blockDepth[b.header.blockId := fo.blockDepth[b.header.parent] + 1])
  }

  /** `b` can hang below a stored block. */
  ghost predicate Attachable(fo: Forest, b: BlockNode) {
    b.header.blockId !in fo.allBlocks && b.header.parent in fo.allBlocks
  }

  lemma ExtendRooted(fo: Forest, b: BlockNode)
    requires Rooted(fo) && Attachable(fo, b)
    ensures Rooted(Extend(fo, b))
  {
    var fo' := Extend(fo, b);
    forall id {:trigger Parent(fo', id)} | id in fo'.allBlocks && id != ROOT_ID
      ensures Parent(fo', id) in fo'.allBlocks && fo'.blockDepth[id] == fo'.blockDepth[Parent(fo', id)] + 1
    {
      if id != b.header.blockId { assert Parent(fo, id) == Parent(fo', id); }
    }
  }

  ghost predicate Grows(fo: Forest, fo': Forest) {
    forall id | id in fo.allBlocks :: id in fo'.allBlocks && fo'.allBlocks[id] == fo.allBlocks[id]
  }

  /** A block keeps its path when the forest grows. */
  lemma {:induction false} PathStable(fo: Forest, fo': Forest, id: BlockId)
    requires Rooted(fo) && Rooted(fo') && Grows(fo, fo') && id in fo.allBlocks
    ensures Path(fo', id) == Path(fo, id)
    ensures fo'.blockDepth[id] == fo.blockDepth[id]
    decreases fo.blockDepth[id]
  {
    if id != ROOT_ID {
      PathStable(fo, fo', Parent(fo, id));
      assert Parent(fo', id) == Parent(fo, id);
    }
    assert |Path(fo', id)| == |Path(fo, id)|;
  }

  lemma ExtendPath(fo: Forest, b: BlockNode, id: BlockId)
    requires Rooted(fo) && Attachable(fo, b) && id in fo.allBlocks
    ensures Rooted(Extend(fo, b)) && Path(Extend(fo, b), id) == Path(fo, id)
  {
    ExtendRooted(fo, b);
    PathStable(fo, Extend(fo, b), id);
  }

  lemma ExtendNewPath(fo: Forest, b: BlockNode)
    requires Rooted(fo) && Attachable(fo, b)
    ensures Rooted(Extend(fo, b))
    ensures Path(Extend(fo, b), b.header.blockId) == Path(fo, b.header.parent) + [b]
  {
    ExtendPath(fo, b, b.header.parent);
    assert Parent(Extend(fo, b), b.header.blockId) == b.header.parent;
  }

  lemma BelowPrefix(fo: Forest, a: BlockId, c: BlockId, init: seq<BlockNode>, last: BlockNode)
    requires Rooted(fo) && a in fo.allBlocks && c in fo.allBlocks
    requires Path(fo, c) == init + [last] && Path(fo, a) <= init
    ensures StrictlyAbove(fo, a, c)
  {
    assert init <= Path(fo, c);
  }

  // ----- the parent walk, which at the genesis block stays there -----

  ghost function Up(fo: Forest, id: BlockId, n: nat): (a: BlockId)
    requires Rooted(fo) && id in fo.allBlocks
    ensures a in fo.allBlocks
    decreases n
  {
    if n == 0 then id
    else if id == ROOT_ID then Up(fo, ROOT_ID, n - 1)
    else Up(fo, Parent(fo, id), n - 1)
  }

  lemma {:induction false} UpOnPath(fo: Forest, id: BlockId, n: nat)
    requires Rooted(fo) && id in fo.allBlocks
    ensures n <= fo.blockDepth[id] ==> Up(fo, id, n) == Path(fo, id)[fo.blockDepth[id] - n].header.blockId
    ensures n >= fo.blockDepth[id] ==> Up(fo, id, n) == ROOT_ID
    decreases n
  {
    assert fo.allBlocks[id].header.blockId == id;
    if n > 0 {
      if id == ROOT_ID {
        UpOnPath(fo, ROOT_ID, n - 1);
      } else {
        UpOnPath(fo, Parent(fo, id), n - 1);
        assert Path(fo, id) == Path(fo, Parent(fo, id)) + [fo.allBlocks[id]];
      }
    }
  }

  lemma WalkReaches(fo: Forest, f: BlockId, p: BlockId) returns (n: nat)
    requires Rooted(fo) && f in fo.allBlocks && p in fo.allBlocks
    requires f == ROOT_ID || StrictlyAbove(fo, f, p)
    ensures Parent(fo, Up(fo, p, n)) == f
  {
    AncestorAt(fo, f, p);
    if f == ROOT_ID {
      n := fo.blockDepth[p];
      UpOnPath(fo, p, n);
    } else {
      n := fo.blockDepth[p] - fo.blockDepth[f] - 1;
      UpOnPath(fo, p, n);
      PathPrefix(fo, p, fo.blockDepth[f] + 1);
      var c := Up(fo, p, n);
      PathDetermines(fo, Parent(fo, c), f) by {
        assert Path(fo, c) == Path(fo, Parent(fo, c)) + [fo.allBlocks[c]];
        assert Path(fo, c)[..fo.blockDepth[f] + 1] == Path(fo, f);
      }
    }
  }

  lemma WalkOnlyReaches(fo: Forest, f: BlockId, p: BlockId, n: nat)
    requires Rooted(fo) && f in fo.allBlocks && p in fo.allBlocks
    requires Parent(fo, Up(fo, p, n)) == f
    ensures f == ROOT_ID || StrictlyAbove(fo, f, p)
  {
    var c := Up(fo, p, n);
    UpOnPath(fo, p, n);
    if f != ROOT_ID {
      assert c != ROOT_ID;
      PathPrefix(fo, p, fo.blockDepth[p] - n);
      assert Path(fo, c) == Path(fo, f) + [fo.allBlocks[c]];
    }
  }

  /** The walk that looks for a block whose parent is `f`, starting at `p`, ends exactly when `f` is
      the genesis block or a strict ancestor of `p`. */
  lemma ParentWalkEnds(fo: Forest, f: BlockId, p: BlockId)
    requires Rooted(fo) && f in fo.allBlocks && p in fo.allBlocks
    ensures (exists n: nat :: Parent(fo, Up(fo, p, n)) == f) <==> f == ROOT_ID || StrictlyAbove(fo, f, p)
  {
    if f == ROOT_ID || StrictlyAbove(fo, f, p) {
      var n := WalkReaches(fo, f, p);
    }
    forall n: nat | Parent(fo, Up(fo, p, n)) == f ensures f == ROOT_ID || StrictlyAbove(fo, f, p) {
      WalkOnlyReaches(fo, f, p, n);
    }
  }
}
