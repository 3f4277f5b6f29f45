/** What the two conductors of src/useTreeLink.tsx guarantee: the top-down
    passes, the bottom-up aggregation, and the results of
    `conductCheckTrue` and `conductCheckFalse`. */
module ConductProps {
  import opened TreeTypes
  import opened Indexer
  import opened Levels
  import opened Conduct

  /** The index and its level index agree, as `init` and `levelTree` build them. */
  ghost predicate WF(index: Index, lt: LevelTree)
  {
    IndexWF(index) && LevelsMatch(index, lt)
  }

  // ---------------------------------------------------------------------
  // The top-down cascade of conductCheckTrue

  /** The cascade only adds, and only keys of the index. */
  lemma {:induction false} CascadeBounds(index: Index, lt: LevelTree, keys: set<Key>, n: nat)
    requires WF(index, lt)
    ensures keys <= CascadeTo(lt, keys, n) <= keys + index.Keys
  {
    if n > 0 {
      CascadeBounds(index, lt, keys, n - 1);
      var c := CascadeTo(lt, keys, n - 1);
      forall k | k in Cascaded(Bucket(lt, n - 1), c) ensures k in index {
        var e :| e in Bucket(lt, n - 1) && k in EnabledLinkKeys(e.children);
        ChildLinkKeysBelow(index, lt, n - 1, e, k);
      }
    }
  }

  lemma {:induction false} CascadeMono(lt: LevelTree, keys: set<Key>, n: nat, m: nat)
    requires n <= m
    ensures CascadeTo(lt, keys, n) <= CascadeTo(lt, keys, m)
    decreases m
  {
    if n < m {
      CascadeMono(lt, keys, n, m - 1);
    }
  }

  /** A key of level `l` is added, if at all, by the entries of level `l - 1`:
      from level `l` on the cascade leaves it alone. */
  lemma {:induction false} CascadeSettled(index: Index, lt: LevelTree, keys: set<Key>, k: Key, n: nat)
    requires WF(index, lt) && k in index && index[k].level <= n
    ensures k in CascadeTo(lt, keys, n) <==> k in CascadeTo(lt, keys, index[k].level)
  {
    if n > index[k].level {
      CascadeSettled(index, lt, keys, k, n - 1);
      var c := CascadeTo(lt, keys, n - 1);
      if k in Cascaded(Bucket(lt, n - 1), c) {
        var e :| e in Bucket(lt, n - 1) && k in EnabledLinkKeys(e.children);
        ChildLinkKeysBelow(index, lt, n - 1, e, k);
      }
    }
  }

  /** Downward closure of the cascade: every enabled checked node of the index
      has all its enabled children checked. */
  lemma CascadeClosed(index: Index, lt: LevelTree, keys: set<Key>, k: Key)
    requires WF(index, lt) && k in index && !IsCheckDisabled(index[k].node)
    requires k in CascadeTo(lt, keys, lt.maxLevel + 1)
    ensures EnabledKeys(index[k].node.children) <= CascadeTo(lt, keys, lt.maxLevel + 1)
  {
    var l := index[k].level;
    EntryInBucket(index, lt, k);
    CascadeSettled(index, lt, keys, k, lt.maxLevel + 1);
    LinkKeys(index, k);
    CascadeFromLevel(lt, keys, l, index[k], lt.maxLevel + 1);
  }

  /** An enabled entry of level `l` checked when the cascade reaches it has
      its enabled children checked from then on. */
  lemma CascadeFromLevel(lt: LevelTree, keys: set<Key>, l: nat, e: Entry, m: nat)
    requires l < m && e in Bucket(lt, l) && e.node.key in CascadeTo(lt, keys, l) && !IsCheckDisabled(e.node)
    ensures EnabledLinkKeys(e.children) <= CascadeTo(lt, keys, m)
  {
    CascadedFrom(Bucket(lt, l), CascadeTo(lt, keys, l), e);
    CascadeMono(lt, keys, l + 1, m);
  }

  lemma EntryInBucket(index: Index, lt: LevelTree, k: Key)
    requires WF(index, lt) && k in index
    ensures index[k] in Bucket(lt, index[k].level) && index[k].node.key == k
    ensures index[k].level <= lt.maxLevel
  {
    assert index[k] in LevelSet(index, index.Keys, index[k].level);
  }

  /** An enabled checked entry of a level contributes its enabled children. */
  lemma CascadedFrom(bucket: set<Entry>, checked: set<Key>, e: Entry)
    requires e in bucket && e.node.key in checked && !IsCheckDisabled(e.node)
    ensures EnabledLinkKeys(e.children) <= Cascaded(bucket, checked)
  {
  }

  /** Every key the cascade adds is an enabled child of an enabled checked
      node of the index. */
  lemma {:induction false} CascadeOrigin(index: Index, lt: LevelTree, keys: set<Key>, n: nat, k: Key)
    requires WF(index, lt) && k in CascadeTo(lt, keys, n) && k !in keys
    ensures k in index && !IsCheckDisabled(index[k].node)
    ensures index[k].parentId.Some?
    ensures var q := index[k].parentId.value;
      q in index && !IsCheckDisabled(index[q].node) && q in CascadeTo(lt, keys, n)
  {
    var c := CascadeTo(lt, keys, n - 1);
    if k in c {
      CascadeOrigin(index, lt, keys, n - 1, k);
      CascadeMono(lt, keys, n - 1, n);
    } else {
      var e, key :| e in Bucket(lt, n - 1) && e.node.key in c && !IsCheckDisabled(e.node)
                    && key in EnabledLinkKeys(e.children) && key == k;
      BucketEntry(index, lt, n - 1, e);
      var link :| link in e.children && !IsCheckDisabled(link.node) && link.node.key == k;
      LevelsAndParents(index, e.node.key);
      CascadeMono(lt, keys, n - 1, n);
    }
  }

  /** Only a child of a node is added by the cascade. */
  lemma CascadeAddsChildren(index: Index, lt: LevelTree, keys: set<Key>, n: nat, k: Key)
    requires WF(index, lt)
    ensures k in CascadeTo(lt, keys, n) && k !in keys ==> k in index && index[k].parentId.Some?
  {
    if k in CascadeTo(lt, keys, n) && k !in keys {
      CascadeOrigin(index, lt, keys, n, k);
    }
  }

  // ---------------------------------------------------------------------
  // The top-down clearing pass of conductCheckFalse

  /** The clearing pass only deletes. */
  lemma {:induction false} ClearShrinks(lt: LevelTree, keys: set<Key>, half: set<Key>, n: nat)
    ensures ClearTo(lt, keys, half, n) <= keys
  {
    if n > 0 {
      ClearShrinks(lt, keys, half, n - 1);
    }
  }

  lemma {:induction false} ClearMono(lt: LevelTree, keys: set<Key>, half: set<Key>, n: nat, m: nat)
    requires n <= m
    ensures ClearTo(lt, keys, half, m) <= ClearTo(lt, keys, half, n)
    decreases m
  {
    if n < m {
      ClearMono(lt, keys, half, n, m - 1);
    }
  }

  /** A key of level `l` is deleted, if at all, by the entries of level
      `l - 1`: from level `l` on the clearing pass leaves it alone. */
  lemma {:induction false} ClearSettled(index: Index, lt: LevelTree, keys: set<Key>, half: set<Key>, k: Key, n: nat)
    requires WF(index, lt) && k in index && index[k].level <= n
    ensures k in ClearTo(lt, keys, half, n) <==> k in ClearTo(lt, keys, half, index[k].level)
  {
    if n > index[k].level {
      ClearSettled(index, lt, keys, half, k, n - 1);
      var c := ClearTo(lt, keys, half, n - 1);
      if k in Cleared(Bucket(lt, n - 1), c, half) {
        var e :| e in Bucket(lt, n - 1) && k in EnabledLinkKeys(e.children);
        ChildLinkKeysBelow(index, lt, n - 1, e, k);
      }
    }
  }

  /** An unchecked enabled entry outside the prior half set contributes its
      enabled children to the deleted keys. */
  lemma ClearedFrom(bucket: set<Entry>, checked: set<Key>, half: set<Key>, e: Entry)
    requires e in bucket && e.node.key !in checked && e.node.key !in half && !IsCheckDisabled(e.node)
    ensures EnabledLinkKeys(e.children) <= Cleared(bucket, checked, half)
  {
  }

  lemma ClearFromLevel(lt: LevelTree, keys: set<Key>, half: set<Key>, l: nat, e: Entry, m: nat)
    requires l < m && e in Bucket(lt, l) && e.node.key !in ClearTo(lt, keys, half, l)
    requires e.node.key !in half && !IsCheckDisabled(e.node)
    ensures EnabledLinkKeys(e.children) !! ClearTo(lt, keys, half, m)
  {
    ClearedFrom(Bucket(lt, l), ClearTo(lt, keys, half, l), half, e);
    ClearMono(lt, keys, half, l + 1, m);
  }

  /** An enabled node of the index that is neither checked after the
      clearing pass nor in the prior half set has no enabled child checked. */
  lemma ClearEmptiesChildren(index: Index, lt: LevelTree, keys: set<Key>, half: set<Key>, k: Key)
    requires WF(index, lt) && k in index && !IsCheckDisabled(index[k].node)
    requires k !in ClearTo(lt, keys, half, lt.maxLevel + 1) && k !in half
    ensures EnabledKeys(index[k].node.children) !! ClearTo(lt, keys, half, lt.maxLevel + 1)
  {
    EntryInBucket(index, lt, k);
    ClearSettled(index, lt, keys, half, k, lt.maxLevel + 1);
    LinkKeys(index, k);
    ClearFromLevel(lt, keys, half, index[k].level, index[k], lt.maxLevel + 1);
  }

  /** Every key the clearing pass deletes is an enabled child of an enabled
      node that was unchecked, and not in the prior half set, when its level
      was cleared. */
  lemma {:induction false} ClearOrigin(index: Index, lt: LevelTree, keys: set<Key>, half: set<Key>, n: nat, k: Key)
    requires WF(index, lt) && k in keys && k !in ClearTo(lt, keys, half, n)
    ensures k in index && !IsCheckDisabled(index[k].node)
    ensures index[k].parentId.Some?
    ensures var q := index[k].parentId.value;
      q in index && !IsCheckDisabled(index[q].node) && q !in half && q !in ClearTo(lt, keys, half, n)
  {
    var c := ClearTo(lt, keys, half, n - 1);
    ClearMono(lt, keys, half, n - 1, n);
    if k !in c {
      ClearOrigin(index, lt, keys, half, n - 1, k);
    } else {
      var e, key :| e in Bucket(lt, n - 1) && e.node.key !in c && e.node.key !in half
                    && !IsCheckDisabled(e.node) && key in EnabledLinkKeys(e.children) && key == k;
      BucketEntry(index, lt, n - 1, e);
      var link :| link in e.children && !IsCheckDisabled(link.node) && link.node.key == k;
      LevelsAndParents(index, e.node.key);
    }
  }

  // ---------------------------------------------------------------------
  // The bottom-up pass of both conductors

  /** The bottom-up pass aggregates into `k`: an enabled index node with a
      truthy key (so that its children see it as their `parentNode`) and at
      least one enabled child. */
  ghost predicate Aggregates(index: Index, k: Key)
  {
    && k in index && Truthy(k) && !IsCheckDisabled(index[k].node)
    && EnabledKeys(index[k].node.children) != {}
  }

  /** Levels `maxLevel` down to `n` touch no key outside the index and no
      key of a level below `n - 1`. */
  lemma {:induction false} UpUntouched(index: Index, lt: LevelTree, st: Pass, n: nat, adding: bool, k: Key)
    requires WF(index, lt)
    requires k !in index || index[k].level + 1 < n
    ensures var a := AggregateFrom(lt, st, n, adding);
      && (k in a.checked <==> k in st.checked)
      && (k in a.half <==> k in st.half)
      && (k in a.visited <==> k in st.visited)
    decreases lt.maxLevel + 1 - n
  {
    if n <= lt.maxLevel {
      var s := AggregateFrom(lt, st, n + 1, adding);
      UpUntouched(index, lt, st, n + 1, adding, k);
      ShapeKeys(index, lt, n, s.visited, k);
      AggregateChanges(Bucket(lt, n), s, adding, k);
    }
  }

  /** Once level `l + 1` has been aggregated, the keys of level `l` are final. */
  lemma {:induction false} UpSettled(index: Index, lt: LevelTree, st: Pass, n: nat, adding: bool, k: Key)
    requires WF(index, lt) && k in index && n <= index[k].level + 1
    ensures var a := AggregateFrom(lt, st, n, adding);
      var b := AggregateFrom(lt, st, index[k].level + 1, adding);
      && (k in a.checked <==> k in b.checked)
      && (k in a.half <==> k in b.half)
      && (k in a.visited <==> k in b.visited)
    decreases index[k].level + 1 - n
  {
    if n < index[k].level + 1 {
      EntryInBucket(index, lt, k);
      var s := AggregateFrom(lt, st, n + 1, adding);
      UpSettled(index, lt, st, n + 1, adding, k);
      ShapeKeys(index, lt, n, s.visited, k);
      AggregateChanges(Bucket(lt, n), s, adding, k);
    }
  }

  /** The parents a level reaches are one level up. */
  lemma ShapeKeys(index: Index, lt: LevelTree, n: nat, visited: set<Key>, k: Key)
    requires WF(index, lt)
    requires k !in index || index[k].level + 1 != n
    ensures k !in KeysOf(Reached(Bucket(lt, n), visited))
  {
    ReachedShape(index, lt, n, Bucket(lt, n), visited);
  }

  /** The level below `k` reaches the node of `k` exactly when `k` is truthy
      and has an enabled child, provided `k` is not yet visited; no other
      reached node has the key `k`. */
  lemma ReachedAt(index: Index, lt: LevelTree, k: Key, visited: set<Key>)
    requires WF(index, lt) && k in index && k !in visited
    ensures var r := Reached(Bucket(lt, index[k].level + 1), visited);
      && (index[k].node in r <==> Truthy(k) && EnabledKeys(index[k].node.children) != {})
      && (forall q | q in r && q.key == k :: q == index[k].node)
  {
    var l := index[k].level + 1;
    var r := Reached(Bucket(lt, l), visited);
    ReachedShape(index, lt, l, Bucket(lt, l), visited);
    EntryInBucket(index, lt, k);
    if Truthy(k) && EnabledKeys(index[k].node.children) != {} {
      var c :| c in index[k].node.children && !IsCheckDisabled(c);
      ChildInBucket(index, lt, k, c);
      assert index[c.key] in Bucket(lt, l);
    }
    if index[k].node in r {
      var e :| e in Bucket(lt, l) && !IsCheckDisabled(e.node) && e.parentNode == Some(index[k].node);
      BucketParent(index, lt, l, e);
      assert e.node.key in EnabledKeys(index[k].node.children);
    }
  }

  /** Membership of a parent's key in the parts of one level's aggregation,
      when no other reached node shares the key. */
  lemma KeyInParts(r: set<Tree>, p: Tree, checked: set<Key>, half: set<Key>)
    requires forall q | q in r && q.key == p.key :: q == p
    ensures p.key in KeysOf(r) <==> p in r
    ensures p.key in Full(r, checked) <==> p in r && !IsCheckDisabled(p) && AllChecked(p, checked)
    ensures p.key in Short(r, checked) <==> p in r && !IsCheckDisabled(p) && !AllChecked(p, checked)
    ensures p.key in Partial(r, checked, half) <==> p in r && !IsCheckDisabled(p) && PartialChecked(p, checked, half)
  {
  }

  /** The children of `k` read the same when level `level(k) + 1` is
      aggregated as in the final result. */
  lemma ChildrenFinal(index: Index, lt: LevelTree, st: Pass, adding: bool, k: Key)
    requires WF(index, lt) && k in index
    ensures var p := index[k].node;
      var s := AggregateFrom(lt, st, index[k].level + 2, adding);
      var f := AggregateFrom(lt, st, 0, adding);
      && AllChecked(p, s.checked) == AllChecked(p, f.checked)
      && PartialChecked(p, s.checked, s.half) == PartialChecked(p, f.checked, f.half)
  {
    var p := index[k].node;
    var s := AggregateFrom(lt, st, index[k].level + 2, adding);
    var f := AggregateFrom(lt, st, 0, adding);
    LevelsAndParents(index, k);
    forall c | c in EnabledKeys(p.children)
      ensures (c in s.checked <==> c in f.checked) && (c in s.half <==> c in f.half)
    {
      var t :| t in p.children && !IsCheckDisabled(t) && t.key == c;
      UpSettled(index, lt, st, 0, adding, c);
    }
  }

  /** What the bottom-up pass decides for a key of the index, against the
      final working sets: the checking conductor adds an aggregating node
      whose enabled children are all checked, the unchecking one removes
      an aggregating node with an enabled child unchecked, and both put into
      the half set exactly the aggregating nodes with an enabled child
      checked or half-checked. */
  lemma UpAt(index: Index, lt: LevelTree, down: set<Key>, adding: bool, k: Key)
    requires WF(index, lt) && k in index
    ensures var f := AggregateFrom(lt, Pass(down, {}, {}), 0, adding);
      var p := index[k].node;
      && (k in f.checked <==>
            if adding then k in down || (Aggregates(index, k) && AllChecked(p, f.checked))
            else k in down && !(Aggregates(index, k) && !AllChecked(p, f.checked)))
      && (k in f.half <==> Aggregates(index, k) && PartialChecked(p, f.checked, f.half))
  {
    var st := Pass(down, {}, {});
    EntryInBucket(index, lt, k);
    UpSettled(index, lt, st, 0, adding, k);
    if index[k].level + 1 > lt.maxLevel {
      NoChildBelowBottom(index, lt, k);
    } else {
      UpAtInner(index, lt, down, adding, k);
    }
  }

  /** UpAt for a key above the deepest level, against the state right after
      its children's level has been aggregated. */
  lemma UpAtInner(index: Index, lt: LevelTree, down: set<Key>, adding: bool, k: Key)
    requires WF(index, lt) && k in index && index[k].level + 1 <= lt.maxLevel
    ensures var a := AggregateFrom(lt, Pass(down, {}, {}), index[k].level + 1, adding);
      var f := AggregateFrom(lt, Pass(down, {}, {}), 0, adding);
      var p := index[k].node;
      && (k in a.checked <==>
            if adding then k in down || (Aggregates(index, k) && AllChecked(p, f.checked))
            else k in down && !(Aggregates(index, k) && !AllChecked(p, f.checked)))
      && (k in a.half <==> Aggregates(index, k) && PartialChecked(p, f.checked, f.half))
  {
    DecisionInputs(index, lt, down, adding, k);
    Conclude(lt, Pass(down, {}, {}), index[k].level + 1, adding, index[k].node, down, Aggregates(index, k));
  }

  /** What the aggregation of level `l` reads about the parent `p`: it is
      not visited, not half-checked and checked as in `down` before the
      level; no other reached node shares its key; `agg` says whether it is
      reached and enabled; its children read as in the final sets. */
  ghost predicate Inputs(lt: LevelTree, st: Pass, l: nat, adding: bool, p: Tree, down: set<Key>, agg: bool)
  {
    var s := AggregateFrom(lt, st, l + 1, adding);
    var f := AggregateFrom(lt, st, 0, adding);
    var r := Reached(Bucket(lt, l), s.visited);
    && p.key !in s.visited && p.key !in s.half && (p.key in s.checked <==> p.key in down)
    && (forall q | q in r && q.key == p.key :: q == p)
    && agg == (p in r && !IsCheckDisabled(p))
    && AllChecked(p, s.checked) == AllChecked(p, f.checked)
    && PartialChecked(p, s.checked, s.half) == PartialChecked(p, f.checked, f.half)
  }

  /** UpAtInner without the index: one unfolding of the pass and Decide. */
  lemma Conclude(lt: LevelTree, st: Pass, l: nat, adding: bool, p: Tree, down: set<Key>, agg: bool)
    requires l <= lt.maxLevel && Inputs(lt, st, l, adding, p, down, agg)
    ensures var a := AggregateFrom(lt, st, l, adding);
      var f := AggregateFrom(lt, st, 0, adding);
      && (p.key in a.checked <==>
            if adding then p.key in down || (agg && AllChecked(p, f.checked))
            else p.key in down && !(agg && !AllChecked(p, f.checked)))
      && (p.key in a.half <==> agg && PartialChecked(p, f.checked, f.half))
  {
    var s := AggregateFrom(lt, st, l + 1, adding);
    var f := AggregateFrom(lt, st, 0, adding);
    Decide(Bucket(lt, l), s, adding, p, down, f.checked, f.half, agg);
  }

  /** What the aggregation of the level below `k` reads about `k` and its
      children. */
  lemma DecisionInputs(index: Index, lt: LevelTree, down: set<Key>, adding: bool, k: Key)
    requires WF(index, lt) && k in index
    ensures index[k].node.key == k
    ensures Inputs(lt, Pass(down, {}, {}), index[k].level + 1, adding, index[k].node, down, Aggregates(index, k))
  {
    var st := Pass(down, {}, {});
    var l := index[k].level + 1;
    var s := AggregateFrom(lt, st, l + 1, adding);
    EntryInBucket(index, lt, k);
    UpUntouched(index, lt, st, l + 1, adding, k);
    ReachedAt(index, lt, k, s.visited);
    ChildrenFinal(index, lt, st, adding, k);
  }

  /** The decision of one level's aggregation for a parent `p` that has not
      been visited and whose children read as in the final sets `fc`, `fh`. */
  lemma Decide(bucket: set<Entry>, s: Pass, adding: bool, p: Tree, down: set<Key>,
               fc: set<Key>, fh: set<Key>, agg: bool)
    requires p.key !in s.visited && p.key !in s.half && (p.key in s.checked <==> p.key in down)
    requires forall q | q in Reached(bucket, s.visited) && q.key == p.key :: q == p
    requires agg == (p in Reached(bucket, s.visited) && !IsCheckDisabled(p))
    requires AllChecked(p, s.checked) == AllChecked(p, fc)
    requires PartialChecked(p, s.checked, s.half) == PartialChecked(p, fc, fh)
    ensures var a := Aggregate(bucket, s, adding);
      && (p.key in a.checked <==>
            if adding then p.key in down || (agg && AllChecked(p, fc))
            else p.key in down && !(agg && !AllChecked(p, fc)))
      && (p.key in a.half <==> agg && PartialChecked(p, fc, fh))
  {
    AggregateKey(bucket, s, adding, p);
  }

  /** Membership of a parent's key after one level's aggregation. */
  lemma AggregateKey(bucket: set<Entry>, s: Pass, adding: bool, p: Tree)
    requires forall q | q in Reached(bucket, s.visited) && q.key == p.key :: q == p
    ensures var a := Aggregate(bucket, s, adding);
      var r := Reached(bucket, s.visited);
      && (p.key in a.checked <==>
            if adding then p.key in s.checked || (p in r && !IsCheckDisabled(p) && AllChecked(p, s.checked))
            else p.key in s.checked && !(p in r && !IsCheckDisabled(p) && !AllChecked(p, s.checked)))
      && (p.key in a.half <==> p.key in s.half || (p in r && !IsCheckDisabled(p) && PartialChecked(p, s.checked, s.half)))
  {
    KeyInParts(Reached(bucket, s.visited), p, s.checked, s.half);
  }

  /** A node of the deepest level has no children. */
  lemma NoChildBelowBottom(index: Index, lt: LevelTree, k: Key)
    requires WF(index, lt) && k in index && index[k].level == lt.maxLevel
    ensures EnabledKeys(index[k].node.children) == {}
  {
    LevelsAndParents(index, k);
  }
}
