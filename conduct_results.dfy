/** The results of `conductCheckTrue` and `conductCheckFalse` of
    src/useTreeLink.tsx, stated on the returned checked and half-checked
    sets. */
module ConductResults {
  import opened TreeTypes
  import opened Indexer
  import opened Levels
  import opened Conduct
  import opened ConductProps

  /** Removing the checked keys from the half set does not change which
      nodes read as partially checked. */
  lemma PartialMinus(p: Tree, checked: set<Key>, half: set<Key>)
    ensures PartialChecked(p, checked, half - checked) == PartialChecked(p, checked, half)
  {
    assert checked + (half - checked) == checked + half;
  }

  // ---------------------------------------------------------------------
  // conductCheckTrue

  /** Every key of the result of `conductCheckTrue` is either reached by the
      top-down cascade or an aggregating node whose enabled children are all
      checked; a key is half-checked exactly when it is an unchecked
      aggregating node with an enabled child checked or half-checked. */
  lemma CheckTrueAt(index: Index, lt: LevelTree, keys: set<Key>, k: Key)
    requires WF(index, lt)
    ensures var r := CheckTrue(lt, keys);
      var down := CascadeTo(lt, keys, lt.maxLevel + 1);
      && (k in r.checkedKeys <==> k in down || (Aggregates(index, k) && AllChecked(index[k].node, r.checkedKeys)))
      && (k in r.halfCheckedKeys <==>
            k !in r.checkedKeys && Aggregates(index, k) && PartialChecked(index[k].node, r.checkedKeys, r.halfCheckedKeys))
  {
    var down := CascadeTo(lt, keys, lt.maxLevel + 1);
    var f := AggregateFrom(lt, Pass(down, {}, {}), 0, true);
    if k in index {
      UpAt(index, lt, down, true, k);
      PartialMinus(index[k].node, f.checked, f.half);
    } else {
      UpUntouched(index, lt, Pass(down, {}, {}), 0, true, k);
    }
  }

  /** The cascade's keys all stay checked. */
  lemma CascadeKept(index: Index, lt: LevelTree, keys: set<Key>)
    requires WF(index, lt)
    ensures CascadeTo(lt, keys, lt.maxLevel + 1) <= CheckTrue(lt, keys).checkedKeys
  {
    forall k | k in CascadeTo(lt, keys, lt.maxLevel + 1) ensures k in CheckTrue(lt, keys).checkedKeys {
      CheckTrueAt(index, lt, keys, k);
    }
  }

  /** Checking never unchecks a key, adds only keys of the tree, and keeps the
      two returned sets apart. */
  lemma CheckTrueBounds(index: Index, lt: LevelTree, keys: set<Key>)
    requires WF(index, lt)
    ensures var r := CheckTrue(lt, keys);
      && keys <= r.checkedKeys <= keys + index.Keys
      && r.halfCheckedKeys <= index.Keys
      && r.checkedKeys !! r.halfCheckedKeys
  {
    var r := CheckTrue(lt, keys);
    CascadeBounds(index, lt, keys, lt.maxLevel + 1);
    CascadeKept(index, lt, keys);
    forall k | k in r.checkedKeys ensures k in keys + index.Keys {
      CheckTrueAt(index, lt, keys, k);
    }
    forall k | k in r.halfCheckedKeys ensures k in index {
      CheckTrueAt(index, lt, keys, k);
    }
  }

  /** A key outside the tree is checked exactly when it was passed in, and is
      never half-checked. */
  lemma CheckTrueOutside(index: Index, lt: LevelTree, keys: set<Key>, k: Key)
    requires WF(index, lt) && k !in index
    ensures (k in CheckTrue(lt, keys).checkedKeys <==> k in keys) && k !in CheckTrue(lt, keys).halfCheckedKeys
  {
    CheckTrueAt(index, lt, keys, k);
    CascadeBounds(index, lt, keys, lt.maxLevel + 1);
  }

  /** A check-disabled node keeps its state: it is checked exactly when it
      was passed in, and is never half-checked. */
  lemma CheckTrueDisabled(index: Index, lt: LevelTree, keys: set<Key>, k: Key)
    requires WF(index, lt) && k in index && IsCheckDisabled(index[k].node)
    ensures (k in CheckTrue(lt, keys).checkedKeys <==> k in keys) && k !in CheckTrue(lt, keys).halfCheckedKeys
  {
    CheckTrueAt(index, lt, keys, k);
    CascadeBounds(index, lt, keys, lt.maxLevel + 1);
    if k !in keys && k in CascadeTo(lt, keys, lt.maxLevel + 1) {
      CascadeOrigin(index, lt, keys, lt.maxLevel + 1, k);
    }
  }

  /** Downward closure: a checked enabled node has all its enabled children
      checked. */
  lemma CheckTrueClosed(index: Index, lt: LevelTree, keys: set<Key>, k: Key)
    requires WF(index, lt) && k in index && !IsCheckDisabled(index[k].node)
    requires k in CheckTrue(lt, keys).checkedKeys
    ensures EnabledKeys(index[k].node.children) <= CheckTrue(lt, keys).checkedKeys
  {
    CheckTrueAt(index, lt, keys, k);
    if k in CascadeTo(lt, keys, lt.maxLevel + 1) {
      CascadeClosed(index, lt, keys, k);
      CascadeKept(index, lt, keys);
    }
  }

  /** Upward closure: an aggregating node whose enabled children are all
      checked is checked. */
  lemma CheckTrueUp(index: Index, lt: LevelTree, keys: set<Key>, k: Key)
    requires WF(index, lt) && Aggregates(index, k)
    requires EnabledKeys(index[k].node.children) <= CheckTrue(lt, keys).checkedKeys
    ensures k in CheckTrue(lt, keys).checkedKeys
  {
    CheckTrueAt(index, lt, keys, k);
  }

  // ---------------------------------------------------------------------
  // Conducting an already conducted set changes nothing

  /** The cascade leaves a downward-closed set as it is. */
  lemma {:induction false} CascadeOfClosed(index: Index, lt: LevelTree, keys: set<Key>, x: set<Key>, n: nat)
    requires WF(index, lt) && x == CheckTrue(lt, keys).checkedKeys
    ensures CascadeTo(lt, x, n) == x
  {
    if n > 0 {
      CascadeOfClosed(index, lt, keys, x, n - 1);
      forall c | c in Cascaded(Bucket(lt, n - 1), x) ensures c in x {
        var e :| e in Bucket(lt, n - 1) && e.node.key in x && !IsCheckDisabled(e.node)
                 && c in EnabledLinkKeys(e.children);
        ClosedStep(index, lt, keys, n - 1, e);
      }
    }
  }

  lemma ClosedStep(index: Index, lt: LevelTree, keys: set<Key>, l: nat, e: Entry)
    requires WF(index, lt) && e in Bucket(lt, l) && !IsCheckDisabled(e.node)
    requires e.node.key in CheckTrue(lt, keys).checkedKeys
    ensures EnabledLinkKeys(e.children) <= CheckTrue(lt, keys).checkedKeys
  {
    BucketEntry(index, lt, l, e);
    LinkKeys(index, e.node.key);
    CheckTrueClosed(index, lt, keys, e.node.key);
  }

  /** Re-checking the checked set of a result adds nothing. */
  lemma {:induction false} StableChecked(index: Index, lt: LevelTree, keys: set<Key>, k: Key)
    requires WF(index, lt)
    ensures var x := CheckTrue(lt, keys).checkedKeys;
      k in CheckTrue(lt, x).checkedKeys <==> k in x
    decreases if k in index then lt.maxLevel - index[k].level else 0
  {
    var x := CheckTrue(lt, keys).checkedKeys;
    var y := CheckTrue(lt, x).checkedKeys;
    CascadeOfClosed(index, lt, keys, x, lt.maxLevel + 1);
    CheckTrueAt(index, lt, x, k);
    if Aggregates(index, k) && AllChecked(index[k].node, y) {
      EntryInBucket(index, lt, k);
      forall c | c in EnabledKeys(index[k].node.children) ensures c in x {
        ChildBelow(index, lt, k, c);
        StableChecked(index, lt, keys, c);
      }
      CheckTrueUp(index, lt, keys, k);
    }
  }

  /** An enabled child of an indexed node is indexed one level down, above
      the deepest level. */
  lemma ChildBelow(index: Index, lt: LevelTree, k: Key, c: Key)
    requires WF(index, lt) && k in index && c in EnabledKeys(index[k].node.children)
    ensures c in index && index[c].level == index[k].level + 1 <= lt.maxLevel
  {
    var t :| t in index[k].node.children && !IsCheckDisabled(t) && t.key == c;
    LevelsAndParents(index, k);
    EntryInBucket(index, lt, c);
  }

  lemma StableCheckedSet(index: Index, lt: LevelTree, keys: set<Key>)
    requires WF(index, lt)
    ensures var x := CheckTrue(lt, keys).checkedKeys;
      CheckTrue(lt, x).checkedKeys == x
  {
    var x := CheckTrue(lt, keys).checkedKeys;
    forall k ensures k in CheckTrue(lt, x).checkedKeys <==> k in x {
      StableChecked(index, lt, keys, k);
    }
  }

  /** Re-checking the checked set of a result gives back its half set. */
  lemma {:induction false} StableHalf(index: Index, lt: LevelTree, keys: set<Key>, k: Key)
    requires WF(index, lt)
    ensures var r := CheckTrue(lt, keys);
      k in CheckTrue(lt, r.checkedKeys).halfCheckedKeys <==> k in r.halfCheckedKeys
    decreases if k in index then lt.maxLevel - index[k].level else 0
  {
    var r := CheckTrue(lt, keys);
    var s := CheckTrue(lt, r.checkedKeys);
    StableCheckedSet(index, lt, keys);
    CheckTrueAt(index, lt, keys, k);
    CheckTrueAt(index, lt, r.checkedKeys, k);
    if Aggregates(index, k) {
      EntryInBucket(index, lt, k);
      forall c | c in EnabledKeys(index[k].node.children)
        ensures c in s.halfCheckedKeys <==> c in r.halfCheckedKeys
      {
        ChildBelow(index, lt, k, c);
        StableHalf(index, lt, keys, c);
      }
      assert PartialChecked(index[k].node, s.checkedKeys, s.halfCheckedKeys)
          == PartialChecked(index[k].node, r.checkedKeys, r.halfCheckedKeys);
    }
  }

  /** `conductCheckTrue` is idempotent: conducting the checked keys of a
      result gives that result back. */
  lemma CheckTrueStable(index: Index, lt: LevelTree, keys: set<Key>)
    requires WF(index, lt)
    ensures CheckTrue(lt, CheckTrue(lt, keys).checkedKeys) == CheckTrue(lt, keys)
  {
    var r := CheckTrue(lt, keys);
    StableCheckedSet(index, lt, keys);
    forall k ensures k in CheckTrue(lt, r.checkedKeys).halfCheckedKeys <==> k in r.halfCheckedKeys {
      StableHalf(index, lt, keys, k);
    }
  }

  // ---------------------------------------------------------------------
  // conductCheckFalse

  /** A key stays checked by `conductCheckFalse` exactly when it survives the
      top-down clearing and is not an aggregating node with an enabled child
      unchecked; the half set is as for `conductCheckTrue`. */
  lemma CheckFalseAt(index: Index, lt: LevelTree, keys: set<Key>, half: set<Key>, k: Key)
    requires WF(index, lt)
    ensures var r := CheckFalse(lt, keys, half);
      var down := ClearTo(lt, keys, half, lt.maxLevel + 1);
      && (k in r.checkedKeys <==> k in down && !(Aggregates(index, k) && !AllChecked(index[k].node, r.checkedKeys)))
      && (k in r.halfCheckedKeys <==>
            k !in r.checkedKeys && Aggregates(index, k) && PartialChecked(index[k].node, r.checkedKeys, r.halfCheckedKeys))
  {
    var down := ClearTo(lt, keys, half, lt.maxLevel + 1);
    var f := AggregateFrom(lt, Pass(down, {}, {}), 0, false);
    if k in index {
      UpAt(index, lt, down, false, k);
      PartialMinus(index[k].node, f.checked, f.half);
    } else {
      UpUntouched(index, lt, Pass(down, {}, {}), 0, false, k);
    }
  }

  /** Unchecking never checks a key, and keeps the two returned sets apart. */
  lemma CheckFalseBounds(index: Index, lt: LevelTree, keys: set<Key>, half: set<Key>)
    requires WF(index, lt)
    ensures var r := CheckFalse(lt, keys, half);
      && r.checkedKeys <= ClearTo(lt, keys, half, lt.maxLevel + 1) <= keys
      && r.halfCheckedKeys <= index.Keys
      && r.checkedKeys !! r.halfCheckedKeys
  {
    var r := CheckFalse(lt, keys, half);
    ClearShrinks(lt, keys, half, lt.maxLevel + 1);
    forall k | k in r.checkedKeys ensures k in ClearTo(lt, keys, half, lt.maxLevel + 1) {
      CheckFalseAt(index, lt, keys, half, k);
    }
    forall k | k in r.halfCheckedKeys ensures k in index {
      CheckFalseAt(index, lt, keys, half, k);
    }
  }

  /** A check-disabled node keeps its state, and is never half-checked. */
  lemma CheckFalseDisabled(index: Index, lt: LevelTree, keys: set<Key>, half: set<Key>, k: Key)
    requires WF(index, lt) && k in index && IsCheckDisabled(index[k].node)
    ensures (k in CheckFalse(lt, keys, half).checkedKeys <==> k in keys)
         && k !in CheckFalse(lt, keys, half).halfCheckedKeys
  {
    CheckFalseAt(index, lt, keys, half, k);
    ClearShrinks(lt, keys, half, lt.maxLevel + 1);
    if k in keys && k !in ClearTo(lt, keys, half, lt.maxLevel + 1) {
      ClearOrigin(index, lt, keys, half, lt.maxLevel + 1, k);
    }
  }

  /** A key outside the tree stays checked exactly when it was passed in. */
  lemma CheckFalseOutside(index: Index, lt: LevelTree, keys: set<Key>, half: set<Key>, k: Key)
    requires WF(index, lt) && k !in index
    ensures (k in CheckFalse(lt, keys, half).checkedKeys <==> k in keys)
         && k !in CheckFalse(lt, keys, half).halfCheckedKeys
  {
    CheckFalseAt(index, lt, keys, half, k);
    ClearShrinks(lt, keys, half, lt.maxLevel + 1);
    if k in keys && k !in ClearTo(lt, keys, half, lt.maxLevel + 1) {
      ClearOrigin(index, lt, keys, half, lt.maxLevel + 1, k);
    }
  }

  /** An enabled node that is neither passed in as checked nor as
      half-checked has none of its enabled children checked afterwards. */
  lemma CheckFalseClears(index: Index, lt: LevelTree, keys: set<Key>, half: set<Key>, k: Key)
    requires WF(index, lt) && k in index && !IsCheckDisabled(index[k].node)
    requires k !in keys && k !in half
    ensures EnabledKeys(index[k].node.children) !! CheckFalse(lt, keys, half).checkedKeys
  {
    ClearShrinks(lt, keys, half, lt.maxLevel + 1);
    ClearEmptiesChildren(index, lt, keys, half, k);
    CheckFalseBounds(index, lt, keys, half);
  }

  /** Downward removal: an aggregating node with an enabled child unchecked
      is unchecked. */
  lemma CheckFalseUp(index: Index, lt: LevelTree, keys: set<Key>, half: set<Key>, k: Key)
    requires WF(index, lt) && Aggregates(index, k)
    requires !AllChecked(index[k].node, CheckFalse(lt, keys, half).checkedKeys)
    ensures k !in CheckFalse(lt, keys, half).checkedKeys
  {
    CheckFalseAt(index, lt, keys, half, k);
  }

  // ---------------------------------------------------------------------
  // Checking roots

  /** Every indexed key among `keys` is a root. */
  ghost predicate RootsOnly(index: Index, keys: set<Key>)
  {
    forall s | s in keys && s in index :: index[s].level == 0
  }

  /** When only roots are passed in, the bottom-up pass adds nothing: the
      result is the top-down cascade, with no half-checked node. */
  lemma RootSeedExact(index: Index, lt: LevelTree, keys: set<Key>)
    requires WF(index, lt) && RootsOnly(index, keys)
    ensures CheckTrue(lt, keys) == Value(CascadeTo(lt, keys, lt.maxLevel + 1), {})
  {
    var r := CheckTrue(lt, keys);
    var down := CascadeTo(lt, keys, lt.maxLevel + 1);
    CascadeKept(index, lt, keys);
    CheckTrueBounds(index, lt, keys);
    forall k ensures (k in r.checkedKeys <==> k in down) && k !in r.halfCheckedKeys {
      if k !in down {
        RootSeedOutside(index, lt, keys, k);
      }
    }
  }

  /** A key the cascade from roots leaves out is neither checked nor
      half-checked: none of its enabled children is. */
  lemma {:induction false} RootSeedOutside(index: Index, lt: LevelTree, keys: set<Key>, k: Key)
    requires WF(index, lt) && RootsOnly(index, keys)
    requires k !in CascadeTo(lt, keys, lt.maxLevel + 1)
    ensures k !in CheckTrue(lt, keys).checkedKeys && k !in CheckTrue(lt, keys).halfCheckedKeys
    decreases if k in index then lt.maxLevel - index[k].level else 0
  {
    var r := CheckTrue(lt, keys);
    CheckTrueAt(index, lt, keys, k);
    if Aggregates(index, k) {
      EntryInBucket(index, lt, k);
      forall c | c in EnabledKeys(index[k].node.children)
        ensures c !in r.checkedKeys && c !in r.halfCheckedKeys
      {
        ChildBelow(index, lt, k, c);
        ChildOutside(index, lt, keys, k, c);
        RootSeedOutside(index, lt, keys, c);
      }
    }
  }

  /** With only roots passed in, the cascade reaches a child only through its
      parent. */
  lemma ChildOutside(index: Index, lt: LevelTree, keys: set<Key>, k: Key, c: Key)
    requires WF(index, lt) && RootsOnly(index, keys) && k in index
    requires c in EnabledKeys(index[k].node.children) && k !in CascadeTo(lt, keys, lt.maxLevel + 1)
    ensures c !in CascadeTo(lt, keys, lt.maxLevel + 1)
  {
    ChildBelow(index, lt, k, c);
    var t :| t in index[k].node.children && !IsCheckDisabled(t) && t.key == c;
    LevelsAndParents(index, k);
    if c in CascadeTo(lt, keys, lt.maxLevel + 1) {
      CascadeOrigin(index, lt, keys, lt.maxLevel + 1, c);
    }
  }
}
