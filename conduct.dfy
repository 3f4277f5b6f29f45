/** The conduction engine of src/useTreeLink.tsx: `conductCheckTrue`,
    `conductCheckFalse` and `removeFromCheckedKeys`. Each conductor makes a
    top-down pass over the levels (cascading or clearing children) and then
    a bottom-up pass that aggregates children into their parents. Within a
    level the entries are taken in any order. */
module Conduct {
  import opened TreeTypes
  import opened Indexer
  import opened Levels

  /** The working sets of the bottom-up pass: `currentCheckedKeys`,
      `currentHalfCheckedKeys` and `visitedKeys`. */
  datatype Pass = Pass(checked: set<Key>, half: set<Key>, visited: set<Key>)

  // ---------------------------------------------------------------------
  // Specification: one level at a time, independent of the order inside it

  /** Keys the cascade adds at one level: the enabled children of every
      enabled entry whose key is checked. */
  function Cascaded(bucket: set<Entry>, checked: set<Key>): set<Key>
  {
    set e, k | e in bucket && e.node.key in checked && !IsCheckDisabled(e.node)
                 && k in EnabledLinkKeys(e.children) :: k
  }

  /** The checked set after the cascade has run over levels `0 .. n - 1`. */
  function CascadeTo(lt: LevelTree, keys: set<Key>, n: nat): set<Key>
  {
    if n == 0 then keys
    else
      var c := CascadeTo(lt, keys, n - 1);
      c + Cascaded(Bucket(lt, n - 1), c)
  }

  /** Keys the clearing pass deletes at one level: the enabled children of
      every enabled entry that is neither checked nor in the prior half set. */
  function Cleared(bucket: set<Entry>, checked: set<Key>, half: set<Key>): set<Key>
  {
    set e, k | e in bucket && e.node.key !in checked && e.node.key !in half
                 && !IsCheckDisabled(e.node) && k in EnabledLinkKeys(e.children) :: k
  }

  /** The checked set after the clearing pass has run over levels `0 .. n - 1`. */
  function ClearTo(lt: LevelTree, keys: set<Key>, half: set<Key>, n: nat): set<Key>
  {
    if n == 0 then keys
    else
      var c := ClearTo(lt, keys, half, n - 1);
      c - Cleared(Bucket(lt, n - 1), c, half)
  }

  /** The parent nodes the entries of one level reach: those of enabled
      entries with a parent node not visited before the level started. */
  function Reached(bucket: set<Entry>, visited: set<Key>): set<Tree>
  {
    set e | e in bucket && !IsCheckDisabled(e.node) && e.parentNode.Some?
              && e.parentNode.value.key !in visited :: e.parentNode.value
  }

  /** `allChecked`: every enabled child of `p` is checked. */
  predicate AllChecked(p: Tree, checked: set<Key>)
  {
    EnabledKeys(p.children) <= checked
  }

  /** `partialChecked`: some enabled child of `p` is checked or half-checked. */
  predicate PartialChecked(p: Tree, checked: set<Key>, half: set<Key>)
  {
    !(EnabledKeys(p.children) !! (checked + half))
  }

  /** Keys of the parent nodes `r`. */
  function KeysOf(r: set<Tree>): set<Key>
  {
    set p | p in r :: p.key
  }

  /** Keys of the enabled parents among `r` whose enabled children are all checked. */
  function Full(r: set<Tree>, checked: set<Key>): set<Key>
  {
    set p | p in r && !IsCheckDisabled(p) && AllChecked(p, checked) :: p.key
  }

  /** Keys of the enabled parents among `r` with an enabled child not checked. */
  function Short(r: set<Tree>, checked: set<Key>): set<Key>
  {
    set p | p in r && !IsCheckDisabled(p) && !AllChecked(p, checked) :: p.key
  }

  /** Keys of the enabled parents among `r` with an enabled child checked or half-checked. */
  function Partial(r: set<Tree>, checked: set<Key>, half: set<Key>): set<Key>
  {
    set p | p in r && !IsCheckDisabled(p) && PartialChecked(p, checked, half) :: p.key
  }

  /** One level of the bottom-up pass. Every reached parent is visited; an
      enabled one that has all enabled children checked is added to checked
      (`adding`, the checking conductor), one that has not is removed from
      checked (the unchecking conductor), and one with some enabled child
      checked or half-checked is added to half. */
  function Aggregate(bucket: set<Entry>, st: Pass, adding: bool): Pass
  {
    var r := Reached(bucket, st.visited);
    Pass(if adding then st.checked + Full(r, st.checked) else st.checked - Short(r, st.checked),
         st.half + Partial(r, st.checked, st.half),
         st.visited + KeysOf(r))
  }

  /** The pass state after the bottom-up pass has run over levels
      `maxLevel` down to `n`. */
  function AggregateFrom(lt: LevelTree, st: Pass, n: nat, adding: bool): Pass
    decreases lt.maxLevel + 1 - n
  {
    if n > lt.maxLevel then st
    else Aggregate(Bucket(lt, n), AggregateFrom(lt, st, n + 1, adding), adding)
  }

  /** The result of `conductCheckTrue(keys)`. */
  function CheckTrue(lt: LevelTree, keys: set<Key>): Value
  {
    var down := CascadeTo(lt, keys, lt.maxLevel + 1);
    var up := AggregateFrom(lt, Pass(down, {}, {}), 0, true);
    Value(up.checked, up.half - up.checked)
  }

  /** The result of `conductCheckFalse(keys, halfKeys)`. */
  function CheckFalse(lt: LevelTree, keys: set<Key>, halfKeys: set<Key>): Value
  {
    var down := ClearTo(lt, keys, halfKeys, lt.maxLevel + 1);
    var up := AggregateFrom(lt, Pass(down, {}, {}), 0, false);
    Value(up.checked, up.half - up.checked)
  }

  // ---------------------------------------------------------------------
  // The imperative conductors

  /** `removeFromCheckedKeys`: the half-checked keys that are not checked. */
  method RemoveFromCheckedKeys(halfCheckedKeys: set<Key>, checkedKeys: set<Key>)
    returns (filteredKeys: set<Key>)
    ensures filteredKeys == halfCheckedKeys - checkedKeys
  {
    filteredKeys := {};
    var rest := halfCheckedKeys;
    while rest != {}
      invariant rest <= halfCheckedKeys
      invariant filteredKeys == (halfCheckedKeys - rest) - checkedKeys
      decreases rest
    {
      var key :| key in rest;
      if key !in checkedKeys {
        filteredKeys := filteredKeys + {key};
      }
      rest := rest - {key};
    }
  }

  /** `children.filter(enabled).forEach(add)`. */
  method AddEnabledChildren(children: seq<ChildLink>, checked: set<Key>) returns (out: set<Key>)
    ensures out == checked + EnabledLinkKeys(children)
  {
    out := checked;
    for i := 0 to |children|
      invariant out == checked + EnabledLinkKeys(children[..i])
    {
      assert children[..i + 1] == children[..i] + [children[i]];
      if !IsCheckDisabled(children[i].node) {
        out := out + {children[i].node.key};
      }
    }
    assert children[..|children|] == children;
  }

  /** `children.filter(enabled).forEach(delete)`. */
  method DeleteEnabledChildren(children: seq<ChildLink>, checked: set<Key>) returns (out: set<Key>)
    ensures out == checked - EnabledLinkKeys(children)
  {
    out := checked;
    for i := 0 to |children|
      invariant out == checked - EnabledLinkKeys(children[..i])
    {
      assert children[..i + 1] == children[..i] + [children[i]];
      if !IsCheckDisabled(children[i].node) {
        out := out - {children[i].node.key};
      }
    }
    assert children[..|children|] == children;
  }

  /** The `allChecked` / `partialChecked` flag loop over a parent's enabled
      children. */
  method ScanChildren(children: seq<Tree>, checked: set<Key>, half: set<Key>)
    returns (allChecked: bool, partialChecked: bool)
    ensures allChecked <==> EnabledKeys(children) <= checked
    ensures partialChecked <==> !(EnabledKeys(children) !! (checked + half))
  {
    allChecked := true;
    partialChecked := false;
    for i := 0 to |children|
      invariant allChecked <==> EnabledKeys(children[..i]) <= checked
      invariant partialChecked <==> !(EnabledKeys(children[..i]) !! (checked + half))
    {
      assert children[..i + 1] == children[..i] + [children[i]];
      var child := children[i];
      if !IsCheckDisabled(child) {
        var isChecked := child.key in checked;
        if allChecked && !isChecked {
          allChecked := false;
        }
        if !partialChecked && (isChecked || child.key in half) {
          partialChecked := true;
        }
      }
    }
    assert children[..|children|] == children;
  }

  /** One level of the cascade in `conductCheckTrue`. */
  method CascadeLevel(ghost index: Index, lt: LevelTree, level: nat, checked: set<Key>)
    returns (out: set<Key>)
    requires IndexWF(index) && LevelsMatch(index, lt)
    ensures out == checked + Cascaded(Bucket(lt, level), checked)
  {
    out := checked;
    var entities := Bucket(lt, level);
    var rest := entities;
    ghost var done: set<Entry> := {};
    while rest != {}
      invariant rest !! done && rest + done == entities
      invariant out == checked + Cascaded(done, checked)
      decreases rest
    {
      var entity :| entity in rest;
      CascadedStep(index, lt, level, done, entity, checked);
      if entity.node.key in out && !IsCheckDisabled(entity.node) {
        out := AddEnabledChildren(entity.children, out);
      }
      rest := rest - {entity};
      done := done + {entity};
    }
  }

  /** One level of the clearing pass in `conductCheckFalse`. */
  method ClearLevel(ghost index: Index, lt: LevelTree, level: nat, checked: set<Key>, half: set<Key>)
    returns (out: set<Key>)
    requires IndexWF(index) && LevelsMatch(index, lt)
    ensures out == checked - Cleared(Bucket(lt, level), checked, half)
  {
    out := checked;
    var entities := Bucket(lt, level);
    var rest := entities;
    ghost var done: set<Entry> := {};
    while rest != {}
      invariant rest !! done && rest + done == entities
      invariant out == checked - Cleared(done, checked, half)
      decreases rest
    {
      var entity :| entity in rest;
      ClearedStep(index, lt, level, done, entity, checked, half);
      if entity.node.key !in out && entity.node.key !in half && !IsCheckDisabled(entity.node) {
        out := DeleteEnabledChildren(entity.children, out);
      }
      rest := rest - {entity};
      done := done + {entity};
    }
  }

  // ---------------------------------------------------------------------
  // Why the order inside a level does not matter

  /** The keys a level's cascade or clearing pass writes are one level down. */
  lemma ChildLinkKeysBelow(index: Index, lt: LevelTree, level: nat, e: Entry, k: Key)
    requires IndexWF(index) && LevelsMatch(index, lt) && e in Bucket(lt, level)
    requires k in EnabledLinkKeys(e.children)
    ensures k in index && index[k].level == level + 1
  {
    BucketEntry(index, lt, level, e);
    var c :| c in e.children && !IsCheckDisabled(c.node) && c.node.key == k;
  }

  lemma CascadedStep(index: Index, lt: LevelTree, level: nat, done: set<Entry>, e: Entry, checked: set<Key>)
    requires IndexWF(index) && LevelsMatch(index, lt)
    requires done <= Bucket(lt, level) && e in Bucket(lt, level)
    ensures Cascaded(done + {e}, checked)
         == Cascaded(done, checked)
            + if e.node.key in checked && !IsCheckDisabled(e.node) then EnabledLinkKeys(e.children) else {}
    ensures e.node.key in checked + Cascaded(done, checked) <==> e.node.key in checked
  {
    BucketEntry(index, lt, level, e);
    if e.node.key in Cascaded(done, checked) {
      var d, k :| d in done && d.node.key in checked && !IsCheckDisabled(d.node)
                  && k in EnabledLinkKeys(d.children) && k == e.node.key;
      ChildLinkKeysBelow(index, lt, level, d, k);
    }
  }

  lemma ClearedStep(index: Index, lt: LevelTree, level: nat, done: set<Entry>, e: Entry,
                    checked: set<Key>, half: set<Key>)
    requires IndexWF(index) && LevelsMatch(index, lt)
    requires done <= Bucket(lt, level) && e in Bucket(lt, level)
    ensures Cleared(done + {e}, checked, half)
         == Cleared(done, checked, half)
            + if e.node.key !in checked && e.node.key !in half && !IsCheckDisabled(e.node)
              then EnabledLinkKeys(e.children) else {}
    ensures e.node.key in checked - Cleared(done, checked, half) <==> e.node.key in checked
  {
    BucketEntry(index, lt, level, e);
    if e.node.key in Cleared(done, checked, half) {
      var d, k :| d in done && d.node.key !in checked && d.node.key !in half && !IsCheckDisabled(d.node)
                  && k in EnabledLinkKeys(d.children) && k == e.node.key;
      ChildLinkKeysBelow(index, lt, level, d, k);
    }
  }

  /** The bottom-up callback skips an entry that is disabled, has no parent
      node, or whose parent has been visited. */
  predicate Skips(e: Entry, visited: set<Key>)
  {
    IsCheckDisabled(e.node) || e.parentNode.None? || e.parentNode.value.key in visited
  }

  /** The bottom-up callback for an entry that reaches the unvisited parent
      `p`, against the current working sets. */
  function Visit(p: Tree, s: Pass, adding: bool): Pass
  {
    if IsCheckDisabled(p) then Pass(s.checked, s.half, s.visited + {p.key})
    else
      var checked :=
        if adding then (if AllChecked(p, s.checked) then s.checked + {p.key} else s.checked)
        else (if AllChecked(p, s.checked) then s.checked else s.checked - {p.key});
      Pass(checked, if PartialChecked(p, s.checked, s.half) then s.half + {p.key} else s.half,
           s.visited + {p.key})
  }

  /** A parent reached from level `level`: an index node one level up whose
      children all sit at `level`. */
  ghost predicate ParentShape(index: Index, level: nat, p: Tree)
  {
    && p.key in index && index[p.key].node == p && index[p.key].level + 1 == level
    && forall c | c in p.children :: c.key in index && index[c.key].level == level
  }

  lemma ReachedShape(index: Index, lt: LevelTree, level: nat, done: set<Entry>, visited: set<Key>)
    requires IndexWF(index) && LevelsMatch(index, lt) && done <= Bucket(lt, level)
    ensures forall p | p in Reached(done, visited) :: ParentShape(index, level, p)
  {
    forall p | p in Reached(done, visited) ensures ParentShape(index, level, p) {
      var e :| e in done && !IsCheckDisabled(e.node) && e.parentNode == Some(p);
      BucketParent(index, lt, level, e);
    }
  }

  /** Two levels reaching the same parents aggregate alike. */
  lemma SameReached(b1: set<Entry>, b2: set<Entry>, st: Pass, adding: bool)
    requires Reached(b1, st.visited) == Reached(b2, st.visited)
    ensures Aggregate(b1, st, adding) == Aggregate(b2, st, adding)
  {
  }

  /** The pass over part of a level has changed only the keys of the
      parents it reached. */
  lemma AggregateChanges(done: set<Entry>, st: Pass, adding: bool, k: Key)
    requires k !in KeysOf(Reached(done, st.visited))
    ensures var a := Aggregate(done, st, adding);
      && (k in a.checked <==> k in st.checked)
      && (k in a.half <==> k in st.half)
      && (k in a.visited <==> k in st.visited)
  {
    var r := Reached(done, st.visited);
    assert k !in Full(r, st.checked) && k !in Short(r, st.checked) && k !in Partial(r, st.checked, st.half);
  }

  /** Reaching one more parent `p` adds its own contribution only. */
  lemma ReachOneMore(r: set<Tree>, p: Tree, checked: set<Key>, half: set<Key>)
    ensures KeysOf(r + {p}) == KeysOf(r) + {p.key}
    ensures Full(r + {p}, checked)
         == Full(r, checked) + if !IsCheckDisabled(p) && AllChecked(p, checked) then {p.key} else {}
    ensures Short(r + {p}, checked)
         == Short(r, checked) + if !IsCheckDisabled(p) && !AllChecked(p, checked) then {p.key} else {}
    ensures Partial(r + {p}, checked, half)
         == Partial(r, checked, half) + if !IsCheckDisabled(p) && PartialChecked(p, checked, half) then {p.key} else {}
  {
  }

  /** One more entry reaches its parent unless it is disabled, has none, or
      the parent was visited before the level. */
  lemma ReachedAdd(done: set<Entry>, e: Entry, visited: set<Key>)
    ensures Reached(done + {e}, visited)
         == Reached(done, visited)
            + if !IsCheckDisabled(e.node) && e.parentNode.Some? && e.parentNode.value.key !in visited
              then {e.parentNode.value} else {}
  {
  }

  /** A newly reached parent whose children read the same before and after
      the part of the level already handled. */
  lemma FreshParent(done: set<Entry>, st: Pass, adding: bool, p: Tree)
    requires var a := Aggregate(done, st, adding);
      && AllChecked(p, a.checked) == AllChecked(p, st.checked)
      && PartialChecked(p, a.checked, a.half) == PartialChecked(p, st.checked, st.half)
    ensures var r := Reached(done, st.visited);
      var b := Pass(if adding then st.checked + Full(r + {p}, st.checked) else st.checked - Short(r + {p}, st.checked),
                    st.half + Partial(r + {p}, st.checked, st.half),
                    st.visited + KeysOf(r + {p}));
      b == Visit(p, Aggregate(done, st, adding), adding)
  {
    var r := Reached(done, st.visited);
    var a := Aggregate(done, st, adding);
    FreshKeys(r, p, st.visited);
    FreshHalf(r, p, st.checked, st.half);
    if adding {
      FreshFull(r, p, st.checked);
    } else {
      FreshShort(r, p, st.checked);
    }
  }

  lemma FreshKeys(r: set<Tree>, p: Tree, visited: set<Key>)
    ensures visited + KeysOf(r + {p}) == (visited + KeysOf(r)) + {p.key}
  {
    ReachOneMore(r, p, {}, {});
  }

  lemma FreshHalf(r: set<Tree>, p: Tree, checked: set<Key>, half: set<Key>)
    ensures half + Partial(r + {p}, checked, half)
         == if !IsCheckDisabled(p) && PartialChecked(p, checked, half)
            then (half + Partial(r, checked, half)) + {p.key} else half + Partial(r, checked, half)
  {
    ReachOneMore(r, p, checked, half);
  }

  lemma FreshFull(r: set<Tree>, p: Tree, checked: set<Key>)
    ensures checked + Full(r + {p}, checked)
         == if !IsCheckDisabled(p) && AllChecked(p, checked)
            then (checked + Full(r, checked)) + {p.key} else checked + Full(r, checked)
  {
    ReachOneMore(r, p, checked, {});
  }

  lemma FreshShort(r: set<Tree>, p: Tree, checked: set<Key>)
    ensures checked - Short(r + {p}, checked)
         == if !IsCheckDisabled(p) && !AllChecked(p, checked)
            then (checked - Short(r, checked)) - {p.key} else checked - Short(r, checked)
  {
    ReachOneMore(r, p, checked, {});
  }

  /** Handling one more entry of the level in the callback's way extends the
      order-free specification of the level by that entry. */
  lemma AggregateStep(index: Index, lt: LevelTree, level: nat, done: set<Entry>, e: Entry,
                      st: Pass, adding: bool)
    requires IndexWF(index) && LevelsMatch(index, lt)
    requires done <= Bucket(lt, level) && e in Bucket(lt, level)
    ensures var a := Aggregate(done, st, adding);
      Aggregate(done + {e}, st, adding)
        == if Skips(e, a.visited) then a else Visit(e.parentNode.value, a, adding)
  {
    var a := Aggregate(done, st, adding);
    var r := Reached(done, st.visited);
    ReachedAdd(done, e, st.visited);
    if !IsCheckDisabled(e.node) && e.parentNode.Some? && e.parentNode.value.key !in st.visited {
      var p := e.parentNode.value;
      BucketParent(index, lt, level, e);
      ReachedShape(index, lt, level, done, st.visited);
      if p.key in a.visited {
        var q :| q in r && q.key == p.key;
        assert q == p;
        SameReached(done + {e}, done, st, adding);
      } else {
        forall k | k in EnabledKeys(p.children)
          ensures (k in a.checked <==> k in st.checked) && (k in a.half <==> k in st.half)
        {
          assert k in index && index[k].level == level;
          AggregateChanges(done, st, adding, k);
        }
        FreshParent(done, st, adding, p);
      }
    } else {
      SameReached(done + {e}, done, st, adding);
    }
  }

  /** One level of the bottom-up pass of either conductor: the checking one
      when `adding`, the unchecking one otherwise. */
  method AggregateLevel(ghost index: Index, lt: LevelTree, level: nat, st: Pass, adding: bool)
    returns (out: Pass)
    requires IndexWF(index) && LevelsMatch(index, lt)
    ensures out == Aggregate(Bucket(lt, level), st, adding)
  {
    var checked, half, visited := st.checked, st.half, st.visited;
    var entities := Bucket(lt, level);
    var rest := entities;
    ghost var done: set<Entry> := {};
    SameReached({}, {}, st, adding);
    while rest != {}
      invariant rest !! done && rest + done == entities
      invariant Pass(checked, half, visited) == Aggregate(done, st, adding)
      decreases rest
    {
      var entity :| entity in rest;
      AggregateStep(index, lt, level, done, entity, st, adding);
      if !(IsCheckDisabled(entity.node) || entity.parentNode.None? || entity.parentNode.value.key in visited) {
        var parentNode := entity.parentNode.value;
        if IsCheckDisabled(parentNode) {
          visited := visited + {parentNode.key};
        } else {
          var allChecked, partialChecked := ScanChildren(parentNode.children, checked, half);
          if adding && allChecked {
            checked := checked + {parentNode.key};
          }
          if !adding && !allChecked {
            checked := checked - {parentNode.key};
          }
          if partialChecked {
            half := half + {parentNode.key};
          }
          visited := visited + {parentNode.key};
        }
      }
      rest := rest - {entity};
      done := done + {entity};
    }
    out := Pass(checked, half, visited);
  }

  /** The top-down loop of `conductCheckTrue`, levels `0 .. maxLevel`. */
  method CascadeDown(ghost index: Index, lt: LevelTree, keys: set<Key>) returns (checked: set<Key>)
    requires IndexWF(index) && LevelsMatch(index, lt)
    ensures checked == CascadeTo(lt, keys, lt.maxLevel + 1)
  {
    checked := keys;
    for level := 0 to lt.maxLevel + 1
      invariant checked == CascadeTo(lt, keys, level)
    {
      checked := CascadeLevel(index, lt, level, checked);
    }
  }

  /** The top-down loop of `conductCheckFalse`, levels `0 .. maxLevel`. */
  method ClearDown(ghost index: Index, lt: LevelTree, keys: set<Key>, half: set<Key>)
    returns (checked: set<Key>)
    requires IndexWF(index) && LevelsMatch(index, lt)
    ensures checked == ClearTo(lt, keys, half, lt.maxLevel + 1)
  {
    checked := keys;
    for level := 0 to lt.maxLevel + 1
      invariant checked == ClearTo(lt, keys, half, level)
    {
      checked := ClearLevel(index, lt, level, checked, half);
    }
  }

  /** The bottom-up loop of either conductor, levels `maxLevel` down to 0,
      starting from an empty half set and no visited key. */
  method AggregateUp(ghost index: Index, lt: LevelTree, checked: set<Key>, adding: bool) returns (st: Pass)
    requires IndexWF(index) && LevelsMatch(index, lt)
    ensures st == AggregateFrom(lt, Pass(checked, {}, {}), 0, adding)
  {
    st := Pass(checked, {}, {});
    var level: int := lt.maxLevel;
    while level >= 0
      invariant -1 <= level <= lt.maxLevel
      invariant st == AggregateFrom(lt, Pass(checked, {}, {}), level + 1, adding)
      decreases level
    {
      st := AggregateLevel(index, lt, level, st, adding);
      level := level - 1;
    }
  }

  /** `conductCheckTrue(keyList)`: cascade down from level 0 to `maxLevel`,
      then aggregate up from `maxLevel` to level 0, then drop the checked
      keys from the half set. The guard `typeof treeLink[key] !== undefined`
      compares a type name with `undefined` and so keeps every key. */
  method ConductCheckTrue(ghost index: Index, lt: LevelTree, keyList: set<Key>) returns (r: Value)
    requires IndexWF(index) && LevelsMatch(index, lt)
    ensures r == CheckTrue(lt, keyList)
  {
    var keys := keyList;
    var currentCheckedKeys := CascadeDown(index, lt, keys);
    var st := AggregateUp(index, lt, currentCheckedKeys, true);
    var half := RemoveFromCheckedKeys(st.half, st.checked);
    r := Value(st.checked, half);
  }

  /** `conductCheckFalse(keys, halfKeys)`: clear down from level 0 to
      `maxLevel` against the prior half set, then aggregate up from
      `maxLevel` to level 0 into a fresh half set. */
  method ConductCheckFalse(ghost index: Index, lt: LevelTree, keys: set<Key>, halfKeys: set<Key>)
    returns (r: Value)
    requires IndexWF(index) && LevelsMatch(index, lt)
    ensures r == CheckFalse(lt, keys, halfKeys)
  {
    var checkedKeys := ClearDown(index, lt, keys, halfKeys);
    var st := AggregateUp(index, lt, checkedKeys, false);
    var half := RemoveFromCheckedKeys(st.half, st.checked);
    r := Value(st.checked, half);
  }
}
