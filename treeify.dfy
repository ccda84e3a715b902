/// `useTreeify`: the flat list is turned into a d3 hierarchy by handing it,
/// behind a synthetic "false root", to d3's `stratify`. What this module
/// models is the part the app writes itself: the id and parent-id accessor
/// wrappers that hang every parentless element under the false root, the
/// list handed to `stratify`, the false-root tests, and the view "detached
/// from root" made of copies of the root's children.
///
/// `stratify` itself belongs to d3-hierarchy; it is a parameter here.
module Treeify {
  import opened Js

  /**
   * An element of the list handed to `stratify`: the module's one false-root
   * object `{ id: falseRootId }`, or an element of the caller's list. Only
   * the false root is `=== falseRoot`: the object never leaves the module.
   */
  datatype Entry<T> = FalseRoot | Item(data: T)

  /**
   * `TreeifyOptions<T>`. The accessors are the caller's; they are also
   * applied to the false-root object when `withFalseRoot` is false, and what
   * they return there is `idOfFalseRoot` / `parentOfFalseRoot`.
   * `withFalseRoot` is `None` when the caller leaves it out.
   */
  datatype TreeifyOptions<!T> = TreeifyOptions(
    idAccessor: T -> string,
    parentIdAccessor: T -> Nullish,
    withFalseRoot: Option<bool>,
    idOfFalseRoot: Nullish,
    parentOfFalseRoot: Nullish)

  /** The destructuring default `{ withFalseRoot = true }`. */
  function WithFalseRoot<T>(o: TreeifyOptions<T>): (r: bool)
    ensures o.withFalseRoot.None? ==> r
    ensures o.withFalseRoot.Some? ==> r == o.withFalseRoot.value
  {
    o.withFalseRoot.GetOr(true)
  }

  /**
   * `isFalseNode(node)`: the node is the false-root object itself, which no
   * element of a caller's list can be.
   */
  predicate IsFalseNode<T>(e: Entry<T>)
    ensures e.Item? ==> !IsFalseNode(e)
  {
    e.FalseRoot?
  }

  /** `x ?? null` */
  function OrNull(x: Nullish): (r: Nullish)
    ensures x.Str? ==> r == x
    ensures !x.Str? ==> r == Null
  {
    if x.Str? then x else Null
  }

  /** `parentIdAccessorWrapper`: the parent id `stratify` sees for an entry. */
  function ParentIdOf<T>(o: TreeifyOptions<T>, falseRootId: string, e: Entry<T>): (r: Nullish)
    ensures !r.Undefined?
  {
    if WithFalseRoot(o) then
      if IsFalseNode(e) then Null
      else Str(o.parentIdAccessor(e.data).Coalesce(falseRootId))
    else
      match e
      case FalseRoot => OrNull(o.parentOfFalseRoot)
      case Item(x) => OrNull(o.parentIdAccessor(x))
  }

  /** `idAccessorWrapper`: the id `stratify` sees for an entry. */
  function IdOf<T>(o: TreeifyOptions<T>, falseRootId: string, e: Entry<T>): (r: Nullish)
    ensures e.Item? ==> r == Str(o.idAccessor(e.data))
  {
    match e
    case FalseRoot => if WithFalseRoot(o) then Str(falseRootId) else o.idOfFalseRoot
    case Item(x) => Str(o.idAccessor(x))
  }

  /** `[falseRoot, ...list]`: the list `stratify` is given. */
  function StratifyInput<T>(list: seq<T>): (r: seq<Entry<T>>)
    ensures |r| == |list| + 1 && r[0] == FalseRoot
    ensures forall i :: 0 <= i < |list| ==> r[i + 1] == Item(list[i])
  {
    [FalseRoot] + seq(|list|, i requires 0 <= i < |list| => Item(list[i]))
  }

  /** The input to `stratify` holds the false root once, at its head, and nowhere else. */
  lemma StratifyInputHasOneFalseRoot<T>(list: seq<T>)
    ensures var r := StratifyInput(list);
      forall i :: 0 <= i < |r| ==> (IsFalseNode(r[i]) <==> i == 0)
  {
    var r := StratifyInput(list);
    forall i | 1 <= i < |r|
      ensures !IsFalseNode(r[i])
    {
      assert r[i] == Item(list[i - 1]);
    }
  }

  /** Dropping the false root from the input to `stratify` gives the caller's list back. */
  lemma StratifyInputRoundTrip<T>(list: seq<T>)
    ensures var r := StratifyInput(list);
      |r[1..]| == |list| && forall i :: 0 <= i < |list| ==> r[1..][i].data == list[i]
  {
  }

  /**
   * With the false root, exactly the false root is parentless for
   * `stratify`: every element of the caller's list gets a parent id, its own
   * when the accessor gives a string (the empty string included), the
   * false root's otherwise. That is what makes the result one tree.
   */
  lemma FalseRootIsTheOnlyRoot<T>(o: TreeifyOptions<T>, falseRootId: string, e: Entry<T>)
    requires WithFalseRoot(o)
    ensures ParentIdOf(o, falseRootId, e) == Null <==> IsFalseNode(e)
    ensures e.Item? && o.parentIdAccessor(e.data).Str? ==>
      ParentIdOf(o, falseRootId, e) == o.parentIdAccessor(e.data)
    ensures e.Item? && !o.parentIdAccessor(e.data).Str? ==>
      ParentIdOf(o, falseRootId, e) == Str(falseRootId)
  {
  }

  /**
   * Without the false root, an element is parentless exactly when its
   * accessor gives `null` or `undefined`, and otherwise keeps its own parent id.
   */
  lemma WithoutFalseRootParentsAsGiven<T>(o: TreeifyOptions<T>, falseRootId: string, x: T)
    requires !WithFalseRoot(o)
    ensures ParentIdOf(o, falseRootId, Item(x)) == Null <==> !o.parentIdAccessor(x).Str?
    ensures o.parentIdAccessor(x).Str? ==> ParentIdOf(o, falseRootId, Item(x)) == o.parentIdAccessor(x)
  {
  }

  /** With the false root, the false root is the entry that carries `falseRootId`. */
  lemma FalseRootCarriesItsId<T>(o: TreeifyOptions<T>, falseRootId: string)
    requires WithFalseRoot(o)
    ensures IdOf(o, falseRootId, FalseRoot) == Str(falseRootId)
    ensures ParentIdOf(o, falseRootId, FalseRoot) == Null
  {
  }

  /**
   * A node of the hierarchy `stratify` builds: the entry it wraps, its id
   * (`undefined` when the id accessor gave none), its depth and height, and
   * its children (d3 leaves `children` undefined for a leaf, which the code
   * reads as the empty list). The link to the parent is not modelled.
   */
  datatype HNode<T> = HNode(data: Entry<T>, id: Option<string>, depth: nat, height: nat, children: seq<HNode<T>>)

  /** `stratify`, from d3-hierarchy: given the entries and the two accessors, a root node. */
  type Stratify<!T> = (seq<Entry<T>>, Entry<T> -> Nullish, Entry<T> -> Nullish) -> HNode<T>

  /** `generateTree`: `stratify` over the false root and the list, through the wrappers. */
  function GenerateTree<T>(list: seq<T>, o: TreeifyOptions<T>, falseRootId: string, stratify: Stratify<T>): HNode<T> {
    stratify(StratifyInput(list), e => IdOf(o, falseRootId, e), e => ParentIdOf(o, falseRootId, e))
  }

  /**
   * The subtree at `n` rebuilt as d3's `hierarchy()` builds it, rooted at
   * depth `d`: every descendant one deeper than its parent, the data and
   * heights kept, and no node carrying an id (`hierarchy()` never sets one).
   */
  function Redepth<T>(n: HNode<T>, d: nat): (r: HNode<T>)
    ensures r.data == n.data && r.id == None && r.height == n.height && r.depth == d
    ensures |r.children| == |n.children|
    decreases n
  {
    HNode(n.data, None, d, n.height,
      seq(|n.children|, i requires 0 <= i < |n.children| => Redepth(n.children[i], d + 1)))
  }

  /**
   * `node.copy()`, which d3 defines as `hierarchy(node)` with each node's
   * data unwrapped: the same subtree as a tree of its own, whose root has
   * depth 0. The ids `stratify` gave the nodes are not copied.
   */
  function Copy<T>(n: HNode<T>): (r: HNode<T>)
    ensures r.depth == 0 && r.data == n.data && r.id == None && |r.children| == |n.children|
  {
    Redepth(n, 0)
  }

  /**
   * Every node of the subtree at `n` has depth `d` plus its distance from
   * `n`, and none carries an id: the shape `hierarchy()` gives a tree.
   */
  ghost predicate DepthsFrom<T>(n: HNode<T>, d: nat)
    decreases n
  {
    && n.depth == d && n.id == None
    && forall i :: 0 <= i < |n.children| ==> DepthsFrom(n.children[i], d + 1)
  }

  /** The entries of the subtree at `n`, in pre-order. */
  function Entries<T>(n: HNode<T>): seq<Entry<T>>
    decreases n
  {
    [n.data] + EntriesOf(n.children)
  }

  /** The entries of a forest, tree after tree. */
  function EntriesOf<T>(ns: seq<HNode<T>>): seq<Entry<T>>
    decreases ns
  {
    if ns == [] then [] else Entries(ns[0]) + EntriesOf(ns[1..])
  }

  /** Re-rooting numbers the depths of the whole subtree from `d` and clears every id. */
  lemma {:induction false} RedepthNumbers<T>(n: HNode<T>, d: nat)
    ensures DepthsFrom(Redepth(n, d), d)
    decreases n
  {
    var r := Redepth(n, d);
    forall i | 0 <= i < |r.children|
      ensures DepthsFrom(r.children[i], d + 1)
    {
      RedepthNumbers(n.children[i], d + 1);
    }
  }

  /** Re-rooting a subtree whose depths already count from `d`, and which has no ids, changes nothing. */
  lemma {:induction false} RedepthKeeps<T>(n: HNode<T>, d: nat)
    requires DepthsFrom(n, d)
    ensures Redepth(n, d) == n
    decreases n
  {
    var r := Redepth(n, d);
    forall i | 0 <= i < |n.children|
      ensures r.children[i] == n.children[i]
    {
      RedepthKeeps(n.children[i], d + 1);
    }
  }

  /** Re-rooting keeps the subtree's entries, in the same order. */
  lemma {:induction false} RedepthKeepsEntries<T>(n: HNode<T>, d: nat)
    ensures Entries(Redepth(n, d)) == Entries(n)
    decreases n
  {
    RedepthAllKeepsEntries(n.children, Redepth(n, d).children, d + 1);
  }

  /** Re-rooting each tree of a forest keeps the forest's entries. */
  lemma {:induction false} RedepthAllKeepsEntries<T>(ns: seq<HNode<T>>, rs: seq<HNode<T>>, d: nat)
    requires |rs| == |ns| && forall i :: 0 <= i < |ns| ==> rs[i] == Redepth(ns[i], d)
    ensures EntriesOf(rs) == EntriesOf(ns)
    decreases ns
  {
    if ns != [] {
      RedepthKeepsEntries(ns[0], d);
      RedepthAllKeepsEntries(ns[1..], rs[1..], d);
    }
  }

  /**
   * `copy()` makes a tree whose depths count from 0 at its root and whose
   * nodes carry no id, which holds the same entries in the same order;
   * copying a copy changes nothing.
   */
  lemma CopyIsFaithful<T>(n: HNode<T>)
    ensures DepthsFrom(Copy(n), 0)
    ensures Entries(Copy(n)) == Entries(n)
    ensures Copy(Copy(n)) == Copy(n)
  {
    RedepthNumbers(n, 0);
    RedepthKeepsEntries(n, 0);
    RedepthKeeps(Copy(n), 0);
  }

  /** `rootNode.children?.map((c) => c.copy()) ?? []` */
  function Detached<T>(root: HNode<T>): (r: seq<HNode<T>>)
    ensures |r| == |root.children|
    ensures forall i :: 0 <= i < |r| ==> r[i] == Copy(root.children[i]) && r[i].depth == 0
  {
    seq(|root.children|, i requires 0 <= i < |root.children| => Copy(root.children[i]))
  }

  /**
   * The detached view holds every entry below the root, in pre-order, and
   * each of its trees has depths counting from 0 and no ids.
   */
  lemma DetachedDropsOnlyTheRoot<T>(root: HNode<T>)
    ensures Entries(root) == [root.data] + EntriesOf(Detached(root))
    ensures forall i :: 0 <= i < |Detached(root)| ==> DepthsFrom(Detached(root)[i], 0)
  {
    var r := Detached(root);
    RedepthAllKeepsEntries(root.children, r, 0);
    forall i | 0 <= i < |r|
      ensures DepthsFrom(r[i], 0)
    {
      RedepthNumbers(root.children[i], 0);
    }
  }

  /**
   * `useTreeifyDetachedFromRoot`: the detached view of the generated tree,
   * which holds every entry of that tree but its root, in pre-order, as
   * trees of their own.
   */
  function TreeifyDetachedFromRoot<T>(list: seq<T>, o: TreeifyOptions<T>, falseRootId: string, stratify: Stratify<T>): (r: seq<HNode<T>>)
    ensures var root := GenerateTree(list, o, falseRootId, stratify);
      && Entries(root) == [root.data] + EntriesOf(r)
      && forall i :: 0 <= i < |r| ==> DepthsFrom(r[i], 0)
  {
    var root := GenerateTree(list, o, falseRootId, stratify);
    DetachedDropsOnlyTheRoot(root);
    Detached(root)
  }

  /** `isFalseHierarchyNodeRootId(id)`: an absent id never matches. */
  predicate IsFalseHierarchyNodeRootId(falseRootId: string, id: Option<string>)
    ensures IsFalseHierarchyNodeRootId(falseRootId, id) ==> id.Some? && id.value == falseRootId
  {
    id == Some(falseRootId)
  }

  /** `isFalseHierarchyNodeRoot(node)`: the node wraps the false root, or carries its id. */
  function IsFalseHierarchyNodeRoot<T>(falseRootId: string, n: HNode<T>): (r: bool)
    ensures r <==> n.data == FalseRoot || n.id == Some(falseRootId)
  {
    IsFalseNode(n.data) || IsFalseHierarchyNodeRootId(falseRootId, n.id)
  }

  /**
   * On a copy only the data half of the false-root test can hold: the copy
   * has no id. A node that passed the test by its id alone fails it once copied.
   */
  lemma CopyKeepsOnlyDataTest<T>(falseRootId: string, n: HNode<T>)
    ensures IsFalseHierarchyNodeRoot(falseRootId, Copy(n)) <==> IsFalseNode(n.data)
    ensures n.id == Some(falseRootId) && !IsFalseNode(n.data) ==>
      IsFalseHierarchyNodeRoot(falseRootId, n) && !IsFalseHierarchyNodeRoot(falseRootId, Copy(n))
  {
  }
}
