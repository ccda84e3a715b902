/// The drag-and-drop list (`HierarchicalDragList`, in its Global and Admin
/// copies, whose logic is the same): which drop zones a drag may enter, the
/// drag state kept between `onDragStart` and `onDragEnd`, what a drop turns
/// into, the `dpNameProp` memo, and the divider drawn under each item.
///
/// `topLevelId` and `dropableTag` are uuids drawn once per module load; they
/// are parameters here. A droppable's id is its list id followed by the tag.
module HierarchicalDragList {
  import opened Js
  import opened Bookmarks
  import opened Treeify

  // ---------------------------------------------------------------------
  // isDropDisabled

  /** A `string | undefined` as a `string | null | undefined`, for `===`. */
  function Optional(x: Option<string>): (r: Nullish)
    ensures r != Null
    ensures x.Some? <==> r.Str?
    ensures x.Some? ==> r.s == x.value
  {
    match x
    case Some(v) => Str(v)
    case None => Undefined
  }

  /**
   * `isDropDisabled(tree[0], activeId, activeParentId, parentIdAccessor)`,
   * where `zone` is the data of the first node of the zone's list.
   * `activeId` is `None` for `null`, `activeParentId` is `None` for
   * `undefined`. Strict inequality tells `null` from `undefined`.
   */
  function IsDropDisabled<T>(zone: T, activeId: Option<string>, activeParentId: Option<string>,
                             parentIdAccessor: Option<T -> Nullish>): (r: bool)
    ensures activeId.None? || parentIdAccessor.None? ==> !r
    ensures activeId.Some? && parentIdAccessor.Some? ==>
      (r <==> parentIdAccessor.value(zone) != Optional(activeParentId))
  {
    if activeId.None? then false
    else if parentIdAccessor.Some? then parentIdAccessor.value(zone) != Optional(activeParentId)
    else false
  }

  /** During a drag, a zone whose first node has a `null` parent is always closed. */
  lemma NullParentZoneClosed<T>(zone: T, activeId: string, activeParentId: Option<string>, acc: T -> Nullish)
    requires acc(zone) == Null
    ensures IsDropDisabled(zone, Some(activeId), activeParentId, Some(acc))
  {
  }

  // ---------------------------------------------------------------------
  // The drag state

  /** `parentIdAccessor?.(option) || undefined`: the parent a drag remembers. */
  function ActiveParentOf<T>(parentIdAccessor: Option<T -> Nullish>, option: T): (r: Option<string>)
    ensures r.Some? <==> parentIdAccessor.Some? && parentIdAccessor.value(option).Truthy()
    ensures r.Some? ==> Str(r.value) == parentIdAccessor.value(option)
  {
    match parentIdAccessor
    case None => None
    case Some(acc) => if acc(option).Truthy() then Some(acc(option).s) else None
  }

  /** `(option) => idAccessor(option) === id` */
  function HasId<T>(idAccessor: T -> string, id: string): T -> bool {
    (o: T) => idAccessor(o) == id
  }

  /**
   * Once a drag has started on `dragged`, a zone is open exactly when its
   * first node has the same parent as `dragged` and that parent is a
   * non-empty string; when the dragged parent is `null` or `""`, only zones
   * whose parent reads `undefined` are open, so such a record cannot go
   * back among its own siblings.
   */
  lemma DropOpenOnlyAmongSiblings<T>(acc: T -> Nullish, dragged: T, zone: T, activeId: string)
    ensures !IsDropDisabled(zone, Some(activeId), ActiveParentOf(Some(acc), dragged), Some(acc))
      <==> if acc(dragged).Truthy() then acc(zone) == acc(dragged) else acc(zone) == Undefined
  {
  }

  /** `activeId` / `activeParentId`, the two pieces of React state of the list. */
  class DragState {
    var activeId: Option<string>
    var activeParentId: Option<string>

    /** `useState(null)` and `useState()`: idle. */
    constructor()
      ensures activeId.None? && activeParentId.None?
    {
      activeId := None;
      activeParentId := None;
    }

    /**
     * `onDragStart`: remember the dragged id, and the parent of the dragged
     * option when it is among `options`; when it is not, the previous parent stays.
     */
    method OnDragStart<T>(options: seq<T>, idAccessor: T -> string, parentIdAccessor: Option<T -> Nullish>,
                          draggableId: string)
      modifies this
      ensures activeId == Some(draggableId)
      ensures var found := Find(options, HasId(idAccessor, draggableId));
        && (found.Some? ==> activeParentId == ActiveParentOf(parentIdAccessor, found.value))
        && (found.None? ==> activeParentId == old(activeParentId))
    {
      var option := Find(options, HasId(idAccessor, draggableId));
      if option.Some? {
        activeParentId := ActiveParentOf(parentIdAccessor, option.value);
      }
      activeId := Some(draggableId);
    }

    /**
     * `onDragEnd`: back to idle first, whatever the drop; then the event
     * handed to `onChange`, if any.
     */
    method OnDragEnd<T>(result: DropResult, options: seq<T>, idAccessor: T -> string, parentOnly: bool,
                        topLevelId: string, dropableTag: string)
      returns (event: Option<ListChangeEvent<T>>)
      modifies this
      ensures activeId.None? && activeParentId.None?
      ensures event == DropEvent(result, options, idAccessor, parentOnly, topLevelId, dropableTag)
    {
      activeId := None;
      activeParentId := None;
      if result.destination.None? {
        return None;
      }
      var destination, source := result.destination.value, result.source;
      if result.reason == Cancel {
        return None;
      }
      if destination.droppableId == source.droppableId && destination.index == source.index {
        return None;
      }
      if source.droppableId != destination.droppableId {
        return None;
      }
      var optionParentId := ReplaceFirst(destination.droppableId, dropableTag, "");
      var sourceParentId := ReplaceFirst(source.droppableId, dropableTag, "");
      var hasParent := optionParentId != topLevelId;
      var option := Find(options, HasId(idAccessor, result.draggableId));
      if option.None? {
        return None;
      }
      if parentOnly && optionParentId != sourceParentId {
        return None;
      }
      event := Some(ListChangeEvent(option.value, if hasParent then Some(optionParentId) else None, destination.index));
    }
  }

  // ---------------------------------------------------------------------
  // The drop mapping

  /** Where a draggable was, or is dropped: a droppable id and an index in it. */
  datatype DraggableLocation = DraggableLocation(droppableId: string, index: int)

  /** `DropReason` */
  datatype DropReason = Drop | Cancel

  /** The part of `DropResult` the list reads. `destination` is `None` for a drop outside any list. */
  datatype DropResult = DropResult(
    draggableId: string,
    source: DraggableLocation,
    destination: Option<DraggableLocation>,
    reason: DropReason)

  /** `ListChangeEvent<T>`: `newParentId` is `None` for `null`, the top level. */
  datatype ListChangeEvent<T> = ListChangeEvent(choice: T, newParentId: Option<string>, newIndexFromParent: int)

  /** `${listId}${dropableTag}`: the id of the droppable that shows the list `listId`. */
  function DroppableId(listId: string, dropableTag: string): string {
    listId + dropableTag
  }

  /** `droppableId.replace(dropableTag, "")`: the list id a droppable id stands for. */
  function ListIdOf(droppableId: string, dropableTag: string): (r: string)
    ensures |r| <= |droppableId|
  {
    ReplaceFirst(droppableId, dropableTag, "")
  }

  /** The decision of `onDragEnd`, as a value: the event passed to `onChange`, or none. */
  function DropEvent<T>(result: DropResult, options: seq<T>, idAccessor: T -> string, parentOnly: bool,
                        topLevelId: string, dropableTag: string): (e: Option<ListChangeEvent<T>>)
    ensures e.Some? <==>
      && result.destination.Some?
      && result.reason != Cancel
      && result.destination.value.droppableId == result.source.droppableId
      && result.destination.value.index != result.source.index
      && exists k :: 0 <= k < |options| && idAccessor(options[k]) == result.draggableId
    ensures e.Some? ==>
      && e.value.choice == options[FindIndex(options, HasId(idAccessor, result.draggableId))]
      && idAccessor(e.value.choice) == result.draggableId
      && e.value.newIndexFromParent == result.destination.value.index
      && var listId := ListIdOf(result.destination.value.droppableId, dropableTag);
         e.value.newParentId == if listId == topLevelId then None else Some(listId)
  {
    if result.destination.None? then None
    else
      var destination, source := result.destination.value, result.source;
      if result.reason == Cancel then None
      else if destination.droppableId == source.droppableId && destination.index == source.index then None
      else if source.droppableId != destination.droppableId then None
      else
        var optionParentId := ListIdOf(destination.droppableId, dropableTag);
        var sourceParentId := ListIdOf(source.droppableId, dropableTag);
        var hasParent := optionParentId != topLevelId;
        match Find(options, HasId(idAccessor, result.draggableId))
        case None => None
        case Some(option) =>
          if parentOnly && optionParentId != sourceParentId then None
          else Some(ListChangeEvent(option, if hasParent then Some(optionParentId) else None, destination.index))
  }

  /**
   * The `parentOnly` check of `onDragEnd` never refuses anything: by the
   * time it runs, source and destination are the same droppable.
   */
  lemma ParentOnlyHasNoEffect<T>(result: DropResult, options: seq<T>, idAccessor: T -> string,
                                 topLevelId: string, dropableTag: string)
    ensures DropEvent(result, options, idAccessor, true, topLevelId, dropableTag)
         == DropEvent(result, options, idAccessor, false, topLevelId, dropableTag)
  {
  }

  /**
   * Stripping the tag from a droppable id gives back the list id, when the
   * tag does not already start inside the list id.
   */
  lemma {:induction false} ListIdOfDroppableId(listId: string, dropableTag: string)
    requires forall k :: 0 <= k < |listId| ==> !OccursAt(listId + dropableTag, dropableTag, k)
    ensures ListIdOf(DroppableId(listId, dropableTag), dropableTag) == listId
  {
    var s := listId + dropableTag;
    assert OccursAt(s, dropableTag, |listId|) by {
      assert s[|listId|..|listId| + |dropableTag|] == dropableTag;
    }
    assert IndexOf(s, dropableTag) == |listId|;
    assert s[..|listId|] == listId;
    assert s[|listId| + |dropableTag|..] == [];
  }

  /**
   * A move inside the list `listId` (reordering within one droppable)
   * becomes an event whose new parent is `listId`, or `null` for the top
   * level, and whose index is the destination index.
   */
  lemma MoveWithinListEvent<T>(options: seq<T>, idAccessor: T -> string, parentOnly: bool, topLevelId: string,
                               dropableTag: string, listId: string, k: nat, from: int, to: int)
    requires forall m :: 0 <= m < |listId| ==> !OccursAt(listId + dropableTag, dropableTag, m)
    requires k < |options| && from != to
    ensures var id := DroppableId(listId, dropableTag);
      var result := DropResult(idAccessor(options[k]), DraggableLocation(id, from), Some(DraggableLocation(id, to)), Drop);
      var e := DropEvent(result, options, idAccessor, parentOnly, topLevelId, dropableTag);
      && e.Some?
      && e.value.newIndexFromParent == to
      && e.value.newParentId == if listId == topLevelId then None else Some(listId)
  {
    ListIdOfDroppableId(listId, dropableTag);
  }

  // ---------------------------------------------------------------------
  // dpNameProp

  /** `DpNameProp`: `data-dp-name`, and `data-dp-ident` when present. */
  datatype DpNameProp = DpNameProp(name: string, ident: Option<string>)

  /** `ident ? `${ident[0]}=${ident[1]}` : ""` */
  function IdentStr(ident: Option<(string, string)>): (r: string)
    ensures ident.None? <==> r == ""
  {
    match ident
    case None => ""
    case Some(pair) => pair.0 + "=" + pair.1
  }

  /** `name + (identStr ? identStr : "")`: the key the props are cached under. */
  function CacheKey(name: string, ident: Option<(string, string)>): (r: string)
    ensures r == name + IdentStr(ident)
  {
    var identStr := IdentStr(ident);
    name + (if identStr != "" then identStr else "")
  }

  /** The props built on a cache miss. */
  function FreshProps(name: string, ident: Option<(string, string)>): (p: DpNameProp)
    ensures p.name == name
    ensures p.ident.Some? <==> ident.Some?
    ensures ident.Some? ==> p.ident.value == ident.value.0 + "=" + ident.value.1
  {
    var props := DpNameProp(name, None);
    if ident.Some? then props.(ident := Some(IdentStr(ident))) else props
  }

  /** The key of a set of props: its name followed by its ident. */
  function KeyOf(p: DpNameProp): string {
    p.name + p.ident.GetOr("")
  }

  /** Fresh props carry their own cache key. */
  lemma FreshPropsKey(name: string, ident: Option<(string, string)>)
    ensures KeyOf(FreshProps(name, ident)) == CacheKey(name, ident)
  {
  }

  /**
   * Two different requests can share a key: `dpNameProp("x=y")` and
   * `dpNameProp("x", ["", "y"])` both use "x=y", and the second call gets
   * the first one's props, whose name is not "x".
   */
  lemma CacheKeyCollides()
    ensures CacheKey("x=y", None) == CacheKey("x", Some(("", "y")))
    ensures FreshProps("x=y", None) != FreshProps("x", Some(("", "y")))
  {
  }

  /**
   * The names a plain object literal inherits from `Object.prototype`
   * (section 20.1.3 of ECMAScript 2024, with the legacy accessors of
   * section B.2.2). `objCache[name]` reads a defined value for each of them
   * although the memo never stored it.
   */
  const ObjectPrototypeKeys: set<string> := {
    "constructor", "hasOwnProperty", "isPrototypeOf", "propertyIsEnumerable",
    "toLocaleString", "toString", "valueOf", "__proto__",
    "__defineGetter__", "__defineSetter__", "__lookupGetter__", "__lookupSetter__"}

  /** What `dpNameProp` hands back: props the memo holds, or the inherited member read under `key`. */
  datatype CacheRead = Stored(props: DpNameProp) | Inherited(key: string)

  /** `objCache`: props by cache key, shared by every call, over a plain `{}`. */
  class DpNameCache {
    var cache: map<string, DpNameProp>

    /** Every entry is filed under its own key, and no entry sits under an inherited name. */
    ghost predicate Valid()
      reads this
    {
      forall k :: k in cache ==> KeyOf(cache[k]) == k && k !in ObjectPrototypeKeys
    }

    constructor()
      ensures Valid() && cache == map[]
    {
      cache := map[];
    }

    /**
     * `dpNameProp(name, ident)`: an inherited name hits at once and returns
     * the `Object.prototype` member; otherwise the cached props for the key,
     * or fresh ones, cached. Props handed back carry the key asked for.
     */
    method Get(name: string, ident: Option<(string, string)>) returns (p: CacheRead)
      requires Valid()
      modifies this
      ensures Valid()
      ensures p.Stored? ==> KeyOf(p.props) == CacheKey(name, ident)
      ensures var key := CacheKey(name, ident);
        && (key in ObjectPrototypeKeys ==> p == Inherited(key) && cache == old(cache))
        && (key !in ObjectPrototypeKeys && key in old(cache) ==> p == Stored(old(cache)[key]) && cache == old(cache))
        && (key !in ObjectPrototypeKeys && key !in old(cache) ==>
              p == Stored(FreshProps(name, ident)) && cache == old(cache)[key := FreshProps(name, ident)])
    {
      var identStr := IdentStr(ident);
      var cacheKey := name + (if identStr != "" then identStr else "");
      if cacheKey in ObjectPrototypeKeys {
        return Inherited(cacheKey);
      }
      if cacheKey in cache {
        return Stored(cache[cacheKey]);
      }
      var props := DpNameProp(name, None);
      if ident.Some? {
        props := props.(ident := Some(identStr));
      }
      FreshPropsKey(name, ident);
      cache := cache[cacheKey := props];
      return Stored(props);
    }
  }

  /** `dpNameProp("constructor")` reads `Object` from the prototype instead of building props. */
  lemma ConstructorNameIsInherited()
    ensures CacheKey("constructor", None) in ObjectPrototypeKeys
  {
    assert IdentStr(None) == "";
    assert "constructor" + "" == "constructor";
  }

  // ---------------------------------------------------------------------
  // The divider under an item (Global copy)

  /** What `TreeNode` draws under a record. */
  datatype Divider = NoDivider | Emphasised | Plain

  /**
   * A folder gets no divider. An item gets the emphasised one when its
   * first position in `options` is the last position of any record (folder
   * or item) with the same `ParentFolder`, the plain one otherwise.
   */
  function DividerOf(options: seq<Bookmark>, node: Bookmark): (r: Divider)
    ensures r == NoDivider <==> node.isFolder
    ensures r == Emphasised ==> var i := FindIndex(options, WithId(node.id));
      forall m :: i < m < |options| && 0 <= m ==> options[m].parentFolder != node.parentFolder
  {
    var i := FindIndex(options, WithId(node.id));
    if node.isFolder then NoDivider
    else
      var lastItemParentFolder := FindLastIndex(options, WithParent(node.parentFolder));
      if i == lastItemParentFolder then Emphasised else Plain
  }

  /**
   * For an item of the list, the emphasised divider marks the end of its
   * sibling group: no record after it has the same parent.
   */
  lemma EmphasisedIffLastOfParent(options: seq<Bookmark>, k: nat)
    requires UniqueIds(options) && k < |options| && !options[k].isFolder
    ensures DividerOf(options, options[k]) == Emphasised
      <==> forall m :: k < m < |options| ==> options[m].parentFolder != options[k].parentFolder
  {
    IndexOfUniqueId(options, k);
    var last := FindLastIndex(options, WithParent(options[k].parentFolder));
    assert 0 <= last && k <= last;
  }

  /** Within one parent, at most one item gets the emphasised divider. */
  lemma OneEmphasisPerParent(options: seq<Bookmark>, j: nat, k: nat)
    requires UniqueIds(options) && j < |options| && k < |options|
    requires options[j].parentFolder == options[k].parentFolder
    requires DividerOf(options, options[j]) == Emphasised && DividerOf(options, options[k]) == Emphasised
    ensures j == k
  {
    IndexOfUniqueId(options, j);
    IndexOfUniqueId(options, k);
  }

  /**
   * A record that is not in `options` and has no record sharing its parent
   * still gets the emphasised divider: both searches give -1.
   */
  lemma AbsentLoneItemEmphasised(options: seq<Bookmark>, node: Bookmark)
    requires !node.isFolder
    requires forall m :: 0 <= m < |options| ==> options[m].id != node.id && options[m].parentFolder != node.parentFolder
    ensures DividerOf(options, node) == Emphasised
  {
  }

  // ---------------------------------------------------------------------
  // The tree the list shows

  /**
   * The options `HierarchicalDragList` passes to `useTreeifyDetachedFromRoot`:
   * the caller's parent accessor, or `() => null` when it gives none.
   */
  function ListTreeOptions<T(!new)>(idAccessor: T -> string, parentIdAccessor: Option<T -> Nullish>): (o: TreeifyOptions<T>)
    ensures WithFalseRoot(o)
    ensures parentIdAccessor.None? ==> forall x :: o.parentIdAccessor(x) == Null
  {
    TreeifyOptions(idAccessor,
      if parentIdAccessor.Some? then parentIdAccessor.value else (x: T) => Null,
      None, Undefined, Undefined)
  }

  /** Without a parent accessor, every option hangs directly under the false root. */
  lemma FlatListWithoutParentAccessor<T(!new)>(idAccessor: T -> string, falseRootId: string, x: T)
    ensures ParentIdOf(ListTreeOptions(idAccessor, None), falseRootId, Item(x)) == Str(falseRootId)
  {
  }
}
