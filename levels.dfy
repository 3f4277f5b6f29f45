/** The level index of src/useTreeLink.tsx (`levelTree`): the indexed entries
    grouped by depth, with the deepest level recorded. */
module Levels {
  import opened TreeTypes
  import opened Indexer

  /** `{maxLevel, levelEntities}`: a bucket exists only for a level some
      entry has. */
  datatype LevelTree = LevelTree(maxLevel: nat, levelEntities: map<nat, set<Entry>>)

  /** `levelEntities.get(level) || new Set()`. */
  function Bucket(lt: LevelTree, level: nat): set<Entry>
  {
    if level in lt.levelEntities then lt.levelEntities[level] else {}
  }

  /** The entries of `index` whose key is among `keys` and whose level is `level`. */
  ghost function LevelSet(index: Index, keys: set<Key>, level: nat): set<Entry>
    requires keys <= index.Keys
  {
    set k | k in keys && index[k].level == level :: index[k]
  }

  /** `lt` is the level index of `index`: every bucket holds exactly the
      entries of its level, and no entry is deeper than `maxLevel`. */
  ghost predicate LevelsMatch(index: Index, lt: LevelTree)
  {
    && (forall l: nat :: Bucket(lt, l) == LevelSet(index, index.Keys, l))
    && (forall k | k in index :: index[k].level <= lt.maxLevel)
  }

  /** The `levelTree` memo: one pass over the keys of the index, adding each
      entry to the bucket of its level and raising `maxLevel`. */
  method BuildLevelTree(index: Index) returns (lt: LevelTree)
    ensures forall l: nat :: Bucket(lt, l) == LevelSet(index, index.Keys, l)
    ensures forall l: nat :: l in lt.levelEntities <==> LevelSet(index, index.Keys, l) != {}
    ensures forall k | k in index :: index[k].level <= lt.maxLevel
    ensures lt.maxLevel == 0 || exists k | k in index :: index[k].level == lt.maxLevel
    ensures LevelsMatch(index, lt)
  {
    var levelEntities: map<nat, set<Entry>> := map[];
    var maxLevel: nat := 0;
    var rest := index.Keys;
    ghost var done: set<Key> := {};
    while rest != {}
      invariant rest !! done && rest + done == index.Keys
      invariant forall l: nat :: Bucket(LevelTree(maxLevel, levelEntities), l) == LevelSet(index, done, l)
      invariant forall l: nat :: l in levelEntities <==> LevelSet(index, done, l) != {}
      invariant forall k | k in done :: index[k].level <= maxLevel
      invariant maxLevel == 0 || exists k | k in done :: index[k].level == maxLevel
      decreases rest
    {
      var key :| key in rest;
      var entity := index[key];
      var level := entity.level;
      var levelSet: set<Entry> := {};
      if level in levelEntities {
        levelSet := levelEntities[level];
      }
      ghost var before := LevelTree(maxLevel, levelEntities);
      levelEntities := levelEntities[level := levelSet + {entity}];
      forall l: nat
        ensures Bucket(LevelTree(maxLevel, levelEntities), l) == LevelSet(index, done + {key}, l)
        ensures l in levelEntities <==> LevelSet(index, done + {key}, l) != {}
      {
        LevelSetAdd(index, done, key, l);
        assert Bucket(before, l) == LevelSet(index, done, l);
      }
      if level > maxLevel {
        maxLevel := level;
      }
      rest := rest - {key};
      done := done + {key};
    }
    lt := LevelTree(maxLevel, levelEntities);
  }

  /** Adding one key to `keys` adds its entry to the bucket of its level only. */
  lemma LevelSetAdd(index: Index, keys: set<Key>, key: Key, l: nat)
    requires keys <= index.Keys && key in index
    ensures LevelSet(index, keys + {key}, l)
         == if index[key].level == l then LevelSet(index, keys, l) + {index[key]} else LevelSet(index, keys, l)
  {
  }

  // ---------------------------------------------------------------------
  // What a bucket entry knows about its neighbours

  /** An entry of bucket `l` is the index entry of its own key, at level `l`;
      its children are indexed one level down with it as their parent, and
      its child links copy those children. */
  lemma BucketEntry(index: Index, lt: LevelTree, l: nat, e: Entry)
    requires IndexWF(index) && LevelsMatch(index, lt) && e in Bucket(lt, l)
    ensures e.node.key in index && index[e.node.key] == e && e.level == l
    ensures l <= lt.maxLevel
    ensures forall c | c in e.node.children ::
      c.key in index && index[c.key].node == c && index[c.key].level == l + 1
    ensures forall c | c in e.children :: c.node in e.node.children
  {
    assert e in LevelSet(index, index.Keys, l);
    var k :| k in index && index[k].level == l && index[k] == e;
    LevelsAndParents(index, k);
    assert Placed(index, k);
    forall c | c in e.children ensures c.node in e.node.children {
      var i :| 0 <= i < |e.children| && e.children[i] == c;
    }
  }

  /** The parent node an entry of bucket `l` reaches is the node of an index
      entry at level `l - 1` with a truthy key, whose children include the
      entry's node and are all indexed at level `l`. */
  lemma BucketParent(index: Index, lt: LevelTree, l: nat, e: Entry)
    requires IndexWF(index) && LevelsMatch(index, lt) && e in Bucket(lt, l)
    requires e.parentNode.Some?
    ensures var p := e.parentNode.value;
      && Truthy(p.key) && p.key in index && index[p.key].node == p
      && index[p.key].level + 1 == l && e.node in p.children
      && (forall c | c in p.children :: c.key in index && index[c.key].level == l)
  {
    BucketEntry(index, lt, l, e);
    var k := e.node.key;
    assert Placed(index, k);
    var q := e.parentId.value;
    assert q in index && index[q].node.key == q;
    LevelsAndParents(index, q);
  }

  /** The entry of an enabled child `c` of an indexed node sits in the bucket
      one level down and reaches that node as its parent when the node's key
      is truthy. */
  lemma ChildInBucket(index: Index, lt: LevelTree, k: Key, c: Tree)
    requires IndexWF(index) && LevelsMatch(index, lt) && k in index
    requires c in index[k].node.children
    ensures c.key in index && index[c.key].node == c
    ensures index[c.key] in Bucket(lt, index[k].level + 1)
    ensures index[c.key].parentNode == if Truthy(k) then Some(index[k].node) else None
  {
    LevelsAndParents(index, k);
    assert Placed(index, c.key);
    assert index[c.key] in LevelSet(index, index.Keys, index[k].level + 1);
  }
}
