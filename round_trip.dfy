/** Checking a node without enabled children and then unchecking it, with the
    click handler of src/useTreeLink.tsx, gives back the conducted state the
    clicks started from. */
module RoundTrip {
  import opened TreeTypes
  import opened Indexer
  import opened Levels
  import opened Conduct
  import opened ConductProps
  import opened ConductResults
  import opened Controller

  /** No key of the index is the falsy key "". */
  ghost predicate TruthyKeys(index: Index)
  {
    forall k | k in index :: Truthy(k)
  }

  /** `l` is an enabled node of the index with no enabled child. */
  ghost predicate EnabledLeaf(index: Index, l: Key)
  {
    l in index && !IsCheckDisabled(index[l].node) && EnabledKeys(index[l].node.children) == {}
  }

  // ---------------------------------------------------------------------
  // The checking click

  /** The cascade adds nothing to a conducted checked set joined with a
      node that has no enabled child. */
  lemma {:induction false} LeafCascade(index: Index, lt: LevelTree, keys: set<Key>, l: Key, n: nat)
    requires WF(index, lt) && EnabledLeaf(index, l)
    ensures var x := CheckTrue(lt, keys).checkedKeys;
      CascadeTo(lt, x + {l}, n) == x + {l}
  {
    var x := CheckTrue(lt, keys).checkedKeys;
    if n > 0 {
      LeafCascade(index, lt, keys, l, n - 1);
      forall e | e in Bucket(lt, n - 1) && e.node.key in x + {l} && !IsCheckDisabled(e.node)
        ensures EnabledLinkKeys(e.children) <= x
      {
        BucketEntry(index, lt, n - 1, e);
        if e.node.key == l {
          LinkKeys(index, l);
        } else {
          ClosedStep(index, lt, keys, n - 1, e);
        }
      }
      assert Cascaded(Bucket(lt, n - 1), x + {l}) <= x;
    }
  }

  // ---------------------------------------------------------------------
  // The unchecking click

  /** With truthy keys, an enabled node that a result of `conductCheckTrue`
      leaves neither checked nor half-checked has no enabled child checked. */
  lemma UncheckedHasNoneChecked(index: Index, lt: LevelTree, keys: set<Key>, k: Key)
    requires WF(index, lt) && TruthyKeys(index) && k in index && !IsCheckDisabled(index[k].node)
    requires k !in CheckTrue(lt, keys).checkedKeys && k !in CheckTrue(lt, keys).halfCheckedKeys
    ensures EnabledKeys(index[k].node.children) !! CheckTrue(lt, keys).checkedKeys
  {
    CheckTrueAt(index, lt, keys, k);
    assert Truthy(k);
  }

  /** One level of the clearing pass of the unchecking click clears no
      checked child. */
  lemma ClearStep(index: Index, lt: LevelTree, keys: set<Key>, l: Key, b: nat, e: Entry)
    requires WF(index, lt) && TruthyKeys(index) && EnabledLeaf(index, l)
    requires e in Bucket(lt, b) && !IsCheckDisabled(e.node)
    requires var s := CheckTrue(lt, CheckTrue(lt, keys).checkedKeys + {l});
      e.node.key !in s.checkedKeys - {l} && e.node.key !in s.halfCheckedKeys
    ensures var s := CheckTrue(lt, CheckTrue(lt, keys).checkedKeys + {l});
      EnabledLinkKeys(e.children) !! s.checkedKeys - {l}
  {
    BucketEntry(index, lt, b, e);
    LinkKeys(index, e.node.key);
    if e.node.key != l {
      UncheckedHasNoneChecked(index, lt, CheckTrue(lt, keys).checkedKeys + {l}, e.node.key);
    }
  }

  /** The clearing pass of the unchecking click removes nothing. */
  lemma {:induction false} LeafClear(index: Index, lt: LevelTree, keys: set<Key>, l: Key, n: nat)
    requires WF(index, lt) && TruthyKeys(index) && EnabledLeaf(index, l)
    ensures var s := CheckTrue(lt, CheckTrue(lt, keys).checkedKeys + {l});
      ClearTo(lt, s.checkedKeys - {l}, s.halfCheckedKeys, n) == s.checkedKeys - {l}
  {
    var s := CheckTrue(lt, CheckTrue(lt, keys).checkedKeys + {l});
    var y := s.checkedKeys - {l};
    if n > 0 {
      LeafClear(index, lt, keys, l, n - 1);
      forall e | e in Bucket(lt, n - 1) && e.node.key !in y && e.node.key !in s.halfCheckedKeys
                 && !IsCheckDisabled(e.node)
        ensures EnabledLinkKeys(e.children) !! y
      {
        ClearStep(index, lt, keys, l, n - 1, e);
      }
      assert Cleared(Bucket(lt, n - 1), y, s.halfCheckedKeys) !! y;
    }
  }

  /** The two clicks uncheck exactly what the check added. */
  lemma {:induction false} UndoChecked(index: Index, lt: LevelTree, keys: set<Key>, l: Key, k: Key)
    requires WF(index, lt) && TruthyKeys(index) && EnabledLeaf(index, l)
    requires l !in CheckTrue(lt, keys).checkedKeys
    ensures var r := CheckTrue(lt, keys);
      var s := CheckTrue(lt, r.checkedKeys + {l});
      k in CheckFalse(lt, s.checkedKeys - {l}, s.halfCheckedKeys).checkedKeys <==> k in r.checkedKeys
    decreases if k in index then lt.maxLevel - index[k].level else 0
  {
    var r := CheckTrue(lt, keys);
    var s := CheckTrue(lt, r.checkedKeys + {l});
    var t := CheckFalse(lt, s.checkedKeys - {l}, s.halfCheckedKeys);
    LeafClear(index, lt, keys, l, lt.maxLevel + 1);
    CheckFalseAt(index, lt, s.checkedKeys - {l}, s.halfCheckedKeys, k);
    if Aggregates(index, k) {
      forall c | c in EnabledKeys(index[k].node.children)
        ensures c in t.checkedKeys <==> c in r.checkedKeys
      {
        ChildBelow(index, lt, k, c);
        UndoChecked(index, lt, keys, l, c);
      }
      assert AllChecked(index[k].node, t.checkedKeys) == AllChecked(index[k].node, r.checkedKeys);
    }
    if k in r.checkedKeys {
      CheckTrueBounds(index, lt, r.checkedKeys + {l});
      if Aggregates(index, k) {
        CheckTrueClosed(index, lt, keys, k);
      }
    } else if k in s.checkedKeys - {l} {
      LeafCascade(index, lt, keys, l, lt.maxLevel + 1);
      CheckTrueAt(index, lt, r.checkedKeys + {l}, k);
      CheckTrueAt(index, lt, keys, k);
    }
  }

  lemma UndoCheckedSet(index: Index, lt: LevelTree, keys: set<Key>, l: Key)
    requires WF(index, lt) && TruthyKeys(index) && EnabledLeaf(index, l)
    requires l !in CheckTrue(lt, keys).checkedKeys
    ensures var r := CheckTrue(lt, keys);
      var s := CheckTrue(lt, r.checkedKeys + {l});
      CheckFalse(lt, s.checkedKeys - {l}, s.halfCheckedKeys).checkedKeys == r.checkedKeys
  {
    var r := CheckTrue(lt, keys);
    var s := CheckTrue(lt, r.checkedKeys + {l});
    forall k ensures k in CheckFalse(lt, s.checkedKeys - {l}, s.halfCheckedKeys).checkedKeys <==> k in r.checkedKeys {
      UndoChecked(index, lt, keys, l, k);
    }
  }

  /** The two clicks give back the half set the check started from. */
  lemma {:induction false} UndoHalf(index: Index, lt: LevelTree, keys: set<Key>, l: Key, k: Key)
    requires WF(index, lt) && TruthyKeys(index) && EnabledLeaf(index, l)
    requires l !in CheckTrue(lt, keys).checkedKeys
    ensures var r := CheckTrue(lt, keys);
      var s := CheckTrue(lt, r.checkedKeys + {l});
      k in CheckFalse(lt, s.checkedKeys - {l}, s.halfCheckedKeys).halfCheckedKeys <==> k in r.halfCheckedKeys
    decreases if k in index then lt.maxLevel - index[k].level else 0
  {
    var r := CheckTrue(lt, keys);
    var s := CheckTrue(lt, r.checkedKeys + {l});
    var t := CheckFalse(lt, s.checkedKeys - {l}, s.halfCheckedKeys);
    UndoCheckedSet(index, lt, keys, l);
    CheckFalseAt(index, lt, s.checkedKeys - {l}, s.halfCheckedKeys, k);
    CheckTrueAt(index, lt, keys, k);
    if Aggregates(index, k) {
      forall c | c in EnabledKeys(index[k].node.children)
        ensures c in t.halfCheckedKeys <==> c in r.halfCheckedKeys
      {
        ChildBelow(index, lt, k, c);
        UndoHalf(index, lt, keys, l, c);
      }
      assert PartialChecked(index[k].node, t.checkedKeys, t.halfCheckedKeys)
          == PartialChecked(index[k].node, r.checkedKeys, r.halfCheckedKeys);
    }
  }

  /** With truthy keys, checking an unchecked enabled node that has no
      enabled child in a conducted state, and then unchecking it, gives that
      state back: checked and half-checked keys alike. */
  lemma UncheckUndoesCheck(index: Index, lt: LevelTree, keys: set<Key>, l: Key)
    requires WF(index, lt) && TruthyKeys(index) && EnabledLeaf(index, l)
    requires l !in CheckTrue(lt, keys).checkedKeys
    ensures var r := CheckTrue(lt, keys);
      var s := LatestCheckedKeys(lt, r.checkedKeys, r.halfCheckedKeys, true, l);
      LatestCheckedKeys(lt, s.checkedKeys, s.halfCheckedKeys, false, l) == r
  {
    var r := CheckTrue(lt, keys);
    var s := CheckTrue(lt, r.checkedKeys + {l});
    UndoCheckedSet(index, lt, keys, l);
    forall k ensures k in CheckFalse(lt, s.checkedKeys - {l}, s.halfCheckedKeys).halfCheckedKeys <==> k in r.halfCheckedKeys {
      UndoHalf(index, lt, keys, l, k);
    }
  }

  // ---------------------------------------------------------------------
  // A parent keyed ""

  /** `conductCheckTrue` never checks or half-checks a root keyed "" that
      it was not given: no cascade reaches a root, and "" never aggregates. */
  lemma EmptyRootUnchecked(index: Index, lt: LevelTree, keys: set<Key>)
    requires WF(index, lt) && "" in index && index[""].parentId.None? && "" !in keys
    ensures "" !in CheckTrue(lt, keys).checkedKeys && "" !in CheckTrue(lt, keys).halfCheckedKeys
  {
    CascadeAddsChildren(index, lt, keys, lt.maxLevel + 1, "");
    CheckTrueAt(index, lt, keys, "");
  }

  /** A root keyed "" with enabled children `y` and `l`, `l` without enabled
      children: from the conducted state of `{y}`, checking `l` and then
      unchecking it loses `y`. The root is never aggregated, so the
      unchecking click finds it neither checked nor half-checked and clears
      all its enabled children. */
  lemma EmptyKeyBreaksUndo(index: Index, lt: LevelTree, y: Key, l: Key)
    requires WF(index, lt) && "" in index && index[""].parentId.None? && !IsCheckDisabled(index[""].node)
    requires y in EnabledKeys(index[""].node.children) && l in EnabledKeys(index[""].node.children) && y != l
    requires EnabledKeys(index[l].node.children) == {}
    ensures var r := CheckTrue(lt, {y});
      var s := LatestCheckedKeys(lt, r.checkedKeys, r.halfCheckedKeys, true, l);
      var t := LatestCheckedKeys(lt, s.checkedKeys, s.halfCheckedKeys, false, l);
      && l !in r.checkedKeys && y in r.checkedKeys
      && y !in t.checkedKeys
  {
    var r := CheckTrue(lt, {y});
    ChildBelow(index, lt, "", y);
    ChildBelow(index, lt, "", l);
    LeftUnchecked(index, lt, y, l);
    CheckTrueBounds(index, lt, {y});
    var s := CheckTrue(lt, r.checkedKeys + {l});
    EmptyRootUnchecked(index, lt, {y});
    EmptyRootUnchecked(index, lt, r.checkedKeys + {l});
    ClearsChildren(index, lt, s.checkedKeys - {l}, s.halfCheckedKeys, y);
  }

  /** A child `l` of the root "", neither given nor aggregating, stays
      unchecked: the cascade from `y` never reaches the root. */
  lemma LeftUnchecked(index: Index, lt: LevelTree, y: Key, l: Key)
    requires WF(index, lt) && "" in index && index[""].parentId.None? && y != ""
    requires l in EnabledKeys(index[""].node.children) && l != y
    requires EnabledKeys(index[l].node.children) == {}
    ensures l !in CheckTrue(lt, {y}).checkedKeys
  {
    LevelsAndParents(index, "");
    CascadeAddsChildren(index, lt, {y}, lt.maxLevel + 1, "");
    if l in CascadeTo(lt, {y}, lt.maxLevel + 1) {
      CascadeOrigin(index, lt, {y}, lt.maxLevel + 1, l);
    }
    CheckTrueAt(index, lt, {y}, l);
  }

  /** Unchecking from a set without the root "" clears its enabled children. */
  lemma ClearsChildren(index: Index, lt: LevelTree, down: set<Key>, half: set<Key>, y: Key)
    requires WF(index, lt) && "" in index && !IsCheckDisabled(index[""].node)
    requires "" !in down && "" !in half && y in EnabledKeys(index[""].node.children)
    ensures y !in CheckFalse(lt, down, half).checkedKeys
  {
    ClearShrinks(lt, down, half, lt.maxLevel + 1);
    ClearEmptiesChildren(index, lt, down, half, "");
    CheckFalseBounds(index, lt, down, half);
  }
}
