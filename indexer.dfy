/** The tree indexer: `init` and `deepFlatTreeData` of src/useTreeLink.tsx,
    which flatten a forest into a map from key to indexed node. */
module Indexer {
  import opened TreeTypes

  /** Every key that occurs in the forest `data`. */
  function KeySet(data: seq<Tree>): set<Key>
    decreases data
  {
    if data == [] then {}
    else
      var t := data[|data| - 1];
      KeySet(data[..|data| - 1]) + {t.key} + KeySet(t.children)
  }

  /** No key occurs twice in the forest `data`. */
  predicate UniqueKeys(data: seq<Tree>)
    decreases data
  {
    if data == [] then true
    else
      var t := data[|data| - 1];
      var init := data[..|data| - 1];
      && UniqueKeys(init)
      && UniqueKeys(t.children)
      && t.key !in KeySet(init)
      && t.key !in KeySet(t.children)
      && KeySet(init) !! KeySet(t.children)
  }

  /** The key of an optional parent: the `parentId` argument. */
  function KeyOf(parent: Option<Tree>): Option<Key>
  {
    if parent.Some? then Some(parent.value.key) else None
  }

  /** The `children` field stored for `t`, which inherits `inherited`. */
  function Links(t: Tree, inherited: bool): (cs: seq<ChildLink>)
    ensures |cs| == |t.children|
    ensures forall i :: 0 <= i < |cs| ==> cs[i].node == t.children[i]
  {
    seq(|t.children|, i requires 0 <= i < |t.children| =>
      ChildLink(t.children[i], t.children[i].disabled || inherited || t.disabled))
  }

  /** The entry the indexer stores for `t`, visited at `level` below `parent`
      with the disabled flag `inherited` passed down by its ancestors. */
  function EntryOf(t: Tree, level: nat, parent: Option<Tree>, inherited: bool): Entry
  {
    Entry(t, Links(t, inherited), level, KeyOf(parent), ParentNodeOf(parent), t.disabled || inherited)
  }

  /** The map `deepFlatTreeData(data, level, parentId, inherited)` adds to an
      empty result: pre-order, later writes win. */
  function FlatForest(data: seq<Tree>, level: nat, parent: Option<Tree>, inherited: bool): Index
    decreases data
  {
    if data == [] then map[]
    else
      var t := data[|data| - 1];
      FlatForest(data[..|data| - 1], level, parent, inherited)
        + map[t.key := EntryOf(t, level, parent, inherited)]
        + FlatForest(t.children, level + 1, Some(t), t.disabled || inherited)
  }

  /** The index of a whole forest. */
  function Flatten(tree: seq<Tree>): Index
  {
    FlatForest(tree, 0, None, false)
  }

  /** The shape every index built from a forest with unique keys has: each
      entry is keyed by its node's key; a root sits at level 0 with no parent;
      every other entry is exactly what the indexer stores for a child of its
      parent's entry; and every child of an indexed node is indexed with that
      node as its parent. */
  ghost predicate IndexWF(index: Index)
  {
    && (forall k | k in index :: index[k].node.key == k)
    && (forall k {:trigger Placed(index, k)} | k in index :: Placed(index, k))
    && (forall k, c | k in index && c in index[k].node.children ::
          c.key in index && index[c.key].node == c && index[c.key].parentId == Some(k))
  }

  ghost predicate Placed(index: Index, k: Key)
    requires k in index
  {
    var e := index[k];
    match e.parentId
    case None => e == EntryOf(e.node, 0, None, false)
    case Some(q) =>
      && q in index
      && e.node in index[q].node.children
      && e == EntryOf(e.node, index[q].level + 1, Some(index[q].node), index[q].parentDisabled)
  }

  // ---------------------------------------------------------------------
  // The imperative indexer

  /** `deepFlatTreeData`: walks `data` in order, handing each node to the
      `forEach` callback modelled by VisitItem. */
  method DeepFlatTreeData(data: seq<Tree>, level: nat, parentId: Option<Key>, disabled: bool,
                          result: Index, ghost parent: Option<Tree>)
    returns (out: Index)
    requires parentId == KeyOf(parent)
    requires parent.Some? ==> parent.value.key in result && result[parent.value.key].node == parent.value
    requires UniqueKeys(data)
    requires parent.Some? ==> parent.value.key !in KeySet(data)
    ensures out == result + FlatForest(data, level, parent, disabled)
    decreases data, 1
  {
    out := result;
    for i := 0 to |data|
      invariant out == result + FlatForest(data[..i], level, parent, disabled)
    {
      FlatSnoc(result, data, i, level, parent, disabled);
      out := VisitItem(data[i], level, parentId, disabled, out, parent);
    }
    assert data[..|data|] == data;
  }

  /** The body of the `forEach` callback: writes the entry of `item`, the
      parent's node being looked up in the map being built, then descends
      into the children. */
  method VisitItem(item: Tree, level: nat, parentId: Option<Key>, disabled: bool,
                   result: Index, ghost parent: Option<Tree>)
    returns (out: Index)
    requires parentId == KeyOf(parent)
    requires parent.Some? ==> parent.value.key in result && result[parent.value.key].node == parent.value
    requires UniqueKeys(item.children) && item.key !in KeySet(item.children)
    ensures out == result[item.key := EntryOf(item, level, parent, disabled)]
                   + FlatForest(item.children, level + 1, Some(item), item.disabled || disabled)
    decreases item, 0
  {
    var parentNode: Option<Tree> := None;
    if parentId.Some? && Truthy(parentId.value) {
      parentNode := Some(result[parentId.value].node);
    }
    var childrenNode := seq(|item.children|, j requires 0 <= j < |item.children| =>
      ChildLink(item.children[j], item.children[j].disabled || disabled || item.disabled));
    assert Entry(item, childrenNode, level, parentId, parentNode, item.disabled || disabled)
        == EntryOf(item, level, parent, disabled);
    out := result[item.key := Entry(item, childrenNode, level, parentId, parentNode, item.disabled || disabled)];
    if |item.children| > 0 {
      out := DeepFlatTreeData(item.children, level + 1, Some(item.key), item.disabled || disabled, out, Some(item));
    } else {
      EmptyUnion(out, level + 1, Some(item), item.disabled || disabled);
    }
  }

  /** `init`: the index of the whole forest `tree`. */
  method Init(tree: seq<Tree>) returns (index: Index)
    requires UniqueKeys(tree)
    ensures index == Flatten(tree)
    ensures index.Keys == KeySet(tree)
    ensures IndexWF(index)
  {
    index := DeepFlatTreeData(tree, 0, None, false, map[], None);
    EmptyPlus(Flatten(tree));
    FlatKeys(tree, 0, None, false);
    FlattenWF(tree);
  }

  // ---------------------------------------------------------------------
  // Properties of the flattening

  /** One step of the indexer's loop over `data`: the entry of `data[i]` is
      written over what the earlier siblings produced, then its subtree. */
  lemma FlatSnoc(result: Index, data: seq<Tree>, i: nat, level: nat, parent: Option<Tree>, inherited: bool)
    requires i < |data| && UniqueKeys(data)
    requires parent.Some? ==> parent.value.key !in KeySet(data)
    ensures var t := data[i];
      var before := result + FlatForest(data[..i], level, parent, inherited);
      var after := result + FlatForest(data[..i + 1], level, parent, inherited);
      && (parent.Some? ==> parent.value.key in result ==> before[parent.value.key] == result[parent.value.key])
      && after == before[t.key := EntryOf(t, level, parent, inherited)]
                  + FlatForest(t.children, level + 1, Some(t), t.disabled || inherited)
      && UniqueKeys(t.children) && t.key !in KeySet(t.children)
  {
    var t := data[i];
    var prefix := data[..i];
    var entry := EntryOf(t, level, parent, inherited);
    var below := FlatForest(t.children, level + 1, Some(t), t.disabled || inherited);
    var f := FlatForest(prefix, level, parent, inherited);
    assert FlatForest(data[..i + 1], level, parent, inherited) == f + map[t.key := entry] + below by {
      assert data[..i + 1][..i] == prefix && data[..i + 1][i] == t;
    }
    MapShuffle(result, f, t.key, entry, below);
    SnocKeys(data, i);
    FlatKeys(prefix, level, parent, inherited);
  }

  /** Key facts about the `i`-th node of a forest with unique keys. */
  lemma SnocKeys(data: seq<Tree>, i: nat)
    requires i < |data| && UniqueKeys(data)
    ensures KeySet(data[..i]) <= KeySet(data) && KeySet(data[i].children) <= KeySet(data)
    ensures UniqueKeys(data[i].children) && data[i].key !in KeySet(data[i].children)
  {
    KeySetPrefix(data, i);
    KeySetPrefix(data, i + 1);
    UniquePrefix(data, i + 1);
    LastOf(data[..i + 1], data[..i], data[i]);
  }

  /** The definitions of KeySet and UniqueKeys at a non-empty forest. */
  lemma LastOf(pre: seq<Tree>, init: seq<Tree>, t: Tree)
    requires pre != [] && init == pre[..|pre| - 1] && t == pre[|pre| - 1]
    ensures KeySet(pre) == KeySet(init) + {t.key} + KeySet(t.children)
    ensures UniqueKeys(pre) ==> UniqueKeys(t.children) && t.key !in KeySet(t.children)
  {
  }

  lemma MapShuffle(result: Index, f: Index, k: Key, v: Entry, below: Index)
    ensures result + (f + map[k := v] + below) == (result + f)[k := v] + below
  {
  }

  lemma EmptyPlus(m: Index)
    ensures map[] + m == m
  {
  }

  lemma EmptyUnion(m: Index, level: nat, parent: Option<Tree>, inherited: bool)
    ensures m + FlatForest([], level, parent, inherited) == m
  {
  }

  lemma {:induction false} KeySetPrefix(data: seq<Tree>, i: nat)
    requires i <= |data|
    ensures KeySet(data[..i]) <= KeySet(data)
    decreases |data|
  {
    if i < |data| {
      var init := data[..|data| - 1];
      assert init[..i] == data[..i];
      KeySetPrefix(init, i);
    } else {
      assert data[..i] == data;
    }
  }

  lemma {:induction false} UniquePrefix(data: seq<Tree>, i: nat)
    requires i <= |data| && UniqueKeys(data)
    ensures UniqueKeys(data[..i])
    decreases |data|
  {
    if i < |data| {
      var init := data[..|data| - 1];
      assert init[..i] == data[..i];
      UniquePrefix(init, i);
    } else {
      assert data[..i] == data;
    }
  }

  /** The flattening indexes exactly the keys of the forest. */
  lemma {:induction false} FlatKeys(data: seq<Tree>, level: nat, parent: Option<Tree>, inherited: bool)
    ensures FlatForest(data, level, parent, inherited).Keys == KeySet(data)
    decreases data
  {
    if data != [] {
      var t := data[|data| - 1];
      FlatKeys(data[..|data| - 1], level, parent, inherited);
      FlatKeys(t.children, level + 1, Some(t), t.disabled || inherited);
    }
  }

  /** The last tree of a non-empty forest, its predecessors, and how the
      key set and the flattening split along them. */
  lemma {:induction false} Unfold(data: seq<Tree>, level: nat, parent: Option<Tree>, inherited: bool)
    requires data != []
    ensures var t := data[|data| - 1];
      var init := data[..|data| - 1];
      && KeySet(data) == KeySet(init) + {t.key} + KeySet(t.children)
      && FlatForest(data, level, parent, inherited)
         == FlatForest(init, level, parent, inherited)
            + map[t.key := EntryOf(t, level, parent, inherited)]
            + FlatForest(t.children, level + 1, Some(t), t.disabled || inherited)
      && FlatForest(init, level, parent, inherited).Keys == KeySet(init)
      && FlatForest(t.children, level + 1, Some(t), t.disabled || inherited).Keys == KeySet(t.children)
  {
    var t := data[|data| - 1];
    FlatKeys(data[..|data| - 1], level, parent, inherited);
    FlatKeys(t.children, level + 1, Some(t), t.disabled || inherited);
  }

  /** A root of the forest is indexed under its key with its root entry. */
  lemma {:induction false} FlatRoot(data: seq<Tree>, level: nat, parent: Option<Tree>, inherited: bool, t: Tree)
    requires UniqueKeys(data) && t in data
    ensures t.key in KeySet(data)
    ensures KeySet(t.children) <= KeySet(data)
    ensures t.key in FlatForest(data, level, parent, inherited)
    ensures FlatForest(data, level, parent, inherited)[t.key] == EntryOf(t, level, parent, inherited)
    decreases data
  {
    var last := data[|data| - 1];
    var init := data[..|data| - 1];
    Unfold(data, level, parent, inherited);
    var a := FlatForest(init, level, parent, inherited);
    var b := FlatForest(last.children, level + 1, Some(last), last.disabled || inherited);
    if t != last {
      assert t in init by {
        assert data == init + [last];
      }
      FlatRoot(init, level, parent, inherited, t);
      assert t.key != last.key && t.key !in b;
    }
  }

  /** The generalisation of IndexWF to the map of a sub-forest: its roots
      carry the entry for `parent`, everything else is placed as in IndexWF. */
  ghost predicate SubPlaced(m: Index, k: Key, data: seq<Tree>, level: nat, parent: Option<Tree>, inherited: bool)
    requires k in m
  {
    var e := m[k];
    if e.parentId == KeyOf(parent) then e.node in data && e == EntryOf(e.node, level, parent, inherited)
    else match e.parentId
      case None => false
      case Some(q) =>
        && q in m
        && e.node in m[q].node.children
        && e == EntryOf(e.node, m[q].level + 1, Some(m[q].node), m[q].parentDisabled)
  }

  ghost predicate SubKeyed(m: Index)
  {
    forall k | k in m :: m[k].node.key == k
  }

  ghost predicate SubAllPlaced(m: Index, data: seq<Tree>, level: nat, parent: Option<Tree>, inherited: bool)
  {
    forall k {:trigger SubPlaced(m, k, data, level, parent, inherited)} | k in m ::
      SubPlaced(m, k, data, level, parent, inherited)
  }

  ghost predicate SubChildren(m: Index)
  {
    forall k, c | k in m && c in m[k].node.children ::
      c.key in m && m[c.key].node == c && m[c.key].parentId == Some(k)
  }

  ghost predicate SubWF(m: Index, data: seq<Tree>, level: nat, parent: Option<Tree>, inherited: bool)
  {
    SubKeyed(m) && SubAllPlaced(m, data, level, parent, inherited) && SubChildren(m)
  }

  lemma GlueKeyed(m: Index, a: Index, t: Tree, e: Entry, b: Index)
    requires m == a + map[t.key := e] + b
    requires SubKeyed(a) && SubKeyed(b) && e.node == t
    ensures SubKeyed(m)
  {
  }

  lemma GluePlaced(m: Index, data: seq<Tree>, a: Index, t: Tree, b: Index, level: nat, parent: Option<Tree>, inherited: bool)
    requires data != [] && t == data[|data| - 1]
    requires m == a + map[t.key := EntryOf(t, level, parent, inherited)] + b
    requires a.Keys !! b.Keys && t.key !in a && t.key !in b
    requires parent.Some? ==> parent.value.key !in a && parent.value.key !in b && parent.value.key != t.key
    requires SubAllPlaced(a, data[..|data| - 1], level, parent, inherited)
    requires SubAllPlaced(b, t.children, level + 1, Some(t), t.disabled || inherited)
    requires forall k | k in a :: a[k].parentId.Some? && a[k].parentId != KeyOf(parent) ==> a[k].parentId.value in a
    requires forall k | k in b :: b[k].parentId.Some? && b[k].parentId != Some(t.key) ==> b[k].parentId.value in b
    ensures SubAllPlaced(m, data, level, parent, inherited)
  {
    assert data == data[..|data| - 1] + [t];
    forall k | k in m ensures SubPlaced(m, k, data, level, parent, inherited) {
      if k in b {
        assert m[k] == b[k];
        assert SubPlaced(b, k, t.children, level + 1, Some(t), t.disabled || inherited);
        if b[k].parentId != Some(t.key) {
          var q := b[k].parentId.value;
          assert q in b && m[q] == b[q];
        }
      } else if k != t.key {
        assert m[k] == a[k];
        assert SubPlaced(a, k, data[..|data| - 1], level, parent, inherited);
        if a[k].parentId != KeyOf(parent) {
          var q := a[k].parentId.value;
          assert q in a && m[q] == a[q];
        }
      }
    }
  }

  lemma GlueChildren(m: Index, a: Index, t: Tree, e: Entry, b: Index)
    requires m == a + map[t.key := e] + b
    requires a.Keys !! b.Keys && t.key !in a && t.key !in b && e.node == t
    requires SubChildren(a) && SubChildren(b)
    requires forall c | c in t.children :: c.key in b && b[c.key].node == c && b[c.key].parentId == Some(t.key)
    ensures SubChildren(m)
  {
    forall k, c | k in m && c in m[k].node.children
      ensures c.key in m && m[c.key].node == c && m[c.key].parentId == Some(k)
    {
      if k in b {
        assert m[k] == b[k];
        assert c.key in b && m[c.key] == b[c.key];
      } else if k == t.key {
        assert m[c.key] == b[c.key];
      } else {
        assert m[k] == a[k];
        assert c.key in a && m[c.key] == a[c.key];
      }
    }
  }

  /** Every non-root entry of a sub-forest's map names a parent inside it. */
  ghost predicate ParentsInside(m: Index, parent: Option<Tree>)
  {
    forall k | k in m :: m[k].parentId.Some? && m[k].parentId != KeyOf(parent) ==> m[k].parentId.value in m
  }

  lemma {:induction false} FlatSubWF(data: seq<Tree>, level: nat, parent: Option<Tree>, inherited: bool)
    requires UniqueKeys(data)
    requires parent.Some? ==> parent.value.key !in KeySet(data)
    ensures SubWF(FlatForest(data, level, parent, inherited), data, level, parent, inherited)
    ensures ParentsInside(FlatForest(data, level, parent, inherited), parent)
    decreases data
  {
    if data != [] {
      var t := data[|data| - 1];
      var init := data[..|data| - 1];
      var a := FlatForest(init, level, parent, inherited);
      var e := EntryOf(t, level, parent, inherited);
      var b := FlatForest(t.children, level + 1, Some(t), t.disabled || inherited);
      var m := FlatForest(data, level, parent, inherited);
      Unfold(data, level, parent, inherited);
      FlatSubWF(init, level, parent, inherited);
      FlatSubWF(t.children, level + 1, Some(t), t.disabled || inherited);
      GlueKeyed(m, a, t, e, b);
      assert ParentsInside(a, parent);
      assert ParentsInside(b, Some(t));
      GluePlaced(m, data, a, t, b, level, parent, inherited);
      forall c | c in t.children
        ensures c.key in b && b[c.key].node == c && b[c.key].parentId == Some(t.key)
      {
        FlatRoot(t.children, level + 1, Some(t), t.disabled || inherited, c);
      }
      GlueChildren(m, a, t, e, b);
      forall k | k in m
        ensures m[k].parentId.Some? && m[k].parentId != KeyOf(parent) ==> m[k].parentId.value in m
      {
        if k in b {
          assert m[k] == b[k];
        } else if k != t.key {
          assert m[k] == a[k];
        }
      }
    }
  }

  /** The index of a forest with unique keys has the shape IndexWF states. */
  lemma FlattenWF(tree: seq<Tree>)
    requires UniqueKeys(tree)
    ensures IndexWF(Flatten(tree))
  {
    var m := Flatten(tree);
    FlatSubWF(tree, 0, None, false);
    assert SubKeyed(m) && SubChildren(m);
    forall k | k in m ensures Placed(m, k) {
      assert SubPlaced(m, k, tree, 0, None, false);
    }
  }

  /** Roots are at level 0 with a null parent id; the child of an indexed
      node is one level deeper and names that node as its parent. */
  lemma {:induction false} LevelsAndParents(index: Index, k: Key)
    requires IndexWF(index) && k in index
    ensures index[k].parentId.None? <==> index[k].level == 0
    ensures index[k].parentId.None? ==> index[k].parentNode.None?
    ensures forall c | c in index[k].node.children ::
      c.key in index && index[c.key].level == index[k].level + 1 && index[c.key].parentId == Some(k)
  {
    assert Placed(index, k);
    forall c | c in index[k].node.children
      ensures c.key in index && index[c.key].level == index[k].level + 1 && index[c.key].parentId == Some(k)
    {
      assert Placed(index, c.key);
    }
  }

  /** `parentDisabled` is a node's own flag or'ed with its parent's, so it holds
      for every descendant of a disabled node; the copy in the parent's
      `children` carries the same value. */
  lemma {:induction false} ParentDisabledInherited(index: Index, k: Key)
    requires IndexWF(index) && k in index
    ensures index[k].parentId.None? ==> index[k].parentDisabled == index[k].node.disabled
    ensures index[k].parentId.Some? ==> index[k].parentId.value in index
    ensures index[k].parentId.Some? ==>
      index[k].parentDisabled == (index[k].node.disabled || index[index[k].parentId.value].parentDisabled)
    ensures forall i | 0 <= i < |index[k].children| ::
      var c := index[k].children[i].node;
      c.key in index && index[k].children[i].parentDisabled == index[c.key].parentDisabled
    ensures index[k].parentDisabled ==> forall c | c in index[k].node.children :: index[c.key].parentDisabled
  {
    assert Placed(index, k);
    forall i | 0 <= i < |index[k].children|
      ensures var c := index[k].children[i].node;
        c.key in index && index[k].children[i].parentDisabled == index[c.key].parentDisabled
    {
      var c := index[k].children[i].node;
      assert c == index[k].node.children[i];
      assert Placed(index, c.key);
    }
    forall c | c in index[k].node.children ensures index[k].parentDisabled ==> index[c.key].parentDisabled {
      assert Placed(index, c.key);
    }
  }

  /** The child links stored in an entry name exactly its node's children, so
      their enabled keys are the node's enabled child keys. */
  lemma LinkKeys(index: Index, k: Key)
    requires IndexWF(index) && k in index
    ensures EnabledLinkKeys(index[k].children) == EnabledKeys(index[k].node.children)
  {
    assert Placed(index, k);
    var e := index[k];
    forall key | key in EnabledLinkKeys(e.children) ensures key in EnabledKeys(e.node.children) {
      var c :| c in e.children && !IsCheckDisabled(c.node) && c.node.key == key;
      var i :| 0 <= i < |e.children| && e.children[i] == c;
      assert e.node.children[i] == c.node;
    }
    forall key | key in EnabledKeys(e.node.children) ensures key in EnabledLinkKeys(e.children) {
      var t :| t in e.node.children && !IsCheckDisabled(t) && t.key == key;
      var i :| 0 <= i < |e.node.children| && e.node.children[i] == t;
      assert e.children[i].node == t && e.children[i] in e.children;
    }
  }
}
