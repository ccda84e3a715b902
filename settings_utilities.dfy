/// The settings hook: the bookmark list lives in one admin setting, read
/// from the app context and written back whole after every mutation.
///
/// The list that every operation reads is the context snapshot the hook was
/// created with; a write does not change it. That is why the write made by
/// `addBookmark` inside `editBookmark` starts from the pre-edit list, and why
/// the second write of `editBookmark` is the one that persists.
module SettingsUtilities {
  import opened Js
  import opened Bookmarks

  /** The fixed id of the synthetic `Root` folder in the default value. */
  const RootId: string := "f238cf6d-eb4e-4873-99b9-fb5c2443820c"

  /** `getBookmarks`: the stored list, or the one-record default when nothing is stored. */
  function GetBookmarks(stored: Option<seq<Bookmark>>): (r: seq<Bookmark>)
    ensures stored.Some? ==> r == stored.value
    ensures stored.None? ==>
      && |r| == 1
      && r[0].id == RootId && r[0].name == "Root"
      && r[0].url == "" && r[0].description == ""
      && r[0].parentFolder == None && r[0].isFolder
  {
    match stored
    case Some(bs) => bs
    case None => [Bookmark("Root", "", "", RootId, None, true)]
  }

  /** `getParentFolders`: the folder records of the stored list. */
  function GetParentFolders(stored: Option<seq<Bookmark>>): (r: seq<Bookmark>)
    ensures forall b :: b in r <==> b in GetBookmarks(stored) && b.isFolder
  {
    FilterMembers(GetBookmarks(stored), IsFolder());
    Filter(GetBookmarks(stored), IsFolder())
  }

  /**
   * The folders come out in their stored order, each as often as it is
   * stored, and nothing else comes out.
   */
  lemma ParentFoldersExact(stored: Option<seq<Bookmark>>)
    ensures IsSubsequence(GetParentFolders(stored), GetBookmarks(stored))
    ensures forall b ::
      multiset(GetParentFolders(stored))[b] == (if b.isFolder then multiset(GetBookmarks(stored))[b] else 0)
  {
    var bs := GetBookmarks(stored);
    FilterIsSubsequence(bs, IsFolder());
    forall b
      ensures multiset(GetParentFolders(stored))[b] == if b.isFolder then multiset(bs)[b] else 0
    {
      FilterMultiplicity(bs, IsFolder(), b);
    }
  }

  // ---------------------------------------------------------------------
  // moveBookmark

  /** The records sharing a `ParentFolder`, in list order. */
  function Siblings(bs: seq<Bookmark>, parent: Option<string>): (r: seq<Bookmark>)
    ensures forall b :: b in r <==> b in bs && b.parentFolder == parent
  {
    FilterMembers(bs, WithParent(parent));
    Filter(bs, WithParent(parent))
  }

  /**
   * What `moveBookmark` needs not to crash: the id is present and the
   * sibling index names one of its siblings.
   */
  predicate MoveRequest(bs: seq<Bookmark>, id: string, newIndex: int)
    ensures MoveRequest(bs, id, newIndex) ==> 0 <= IndexOfId(bs, id) && 0 <= newIndex < |bs|
  {
    var i := IndexOfId(bs, id);
    0 <= i && 0 <= newIndex < |Siblings(bs, bs[i].parentFolder)|
  }

  /** `newIndexGeneral`: the absolute index of the `newIndex`-th sibling. */
  function MoveTarget(bs: seq<Bookmark>, id: string, newIndex: int): (j: nat)
    requires MoveRequest(bs, id, newIndex)
    ensures j < |bs|
    ensures bs[j].id == Siblings(bs, bs[IndexOfId(bs, id)].parentFolder)[newIndex].id
  {
    var target := Siblings(bs, bs[IndexOfId(bs, id)].parentFolder)[newIndex];
    assert target in bs;
    IndexOfId(bs, target.id)
  }

  /**
   * `indexLastNonFolderRoot`: the position of the first folder after index
   * 0, less one, or -1 when there is none.
   */
  function LastNonFolderRoot(bs: seq<Bookmark>): (r: int)
    ensures -1 <= r < |bs| - 1 || (bs == [] && r == -1)
    ensures 0 <= r ==> bs[r + 1].isFolder && forall k :: 1 <= k <= r ==> !bs[k].isFolder
    ensures r == -1 <==> forall k :: 1 <= k < |bs| ==> !bs[k].isFolder
  {
    if bs == [] then -1
    else
      var r := FindIndex(bs[1..], IsFolder());
      assert forall k :: 1 <= k < |bs| ==> bs[k] == bs[1..][k - 1];
      r
  }

  /**
   * The guard of `moveBookmark`: a folder may not land at or before the
   * last loose root item, and a loose root item may not land after it.
   */
  predicate MoveRefused(bs: seq<Bookmark>, i: nat, j: nat)
    requires i < |bs|
  {
    var last := LastNonFolderRoot(bs);
    (bs[i].isFolder && j <= last)
    || (bs[i].parentFolder == Some(bs[0].id) && !bs[i].isFolder && j > last)
  }

  /**
   * What the guard means without `LastNonFolderRoot`: a folder is refused
   * exactly inside the leading run of loose records, a loose root item
   * exactly outside it, and any other item never.
   */
  lemma MoveRefusedMeaning(bs: seq<Bookmark>, i: nat, j: nat)
    requires i < |bs|
    ensures j < |bs| && bs[i].isFolder ==> (MoveRefused(bs, i, j) <==> InLeadingLooseRun(bs, j))
    ensures j < |bs| && !bs[i].isFolder && bs[i].parentFolder == Some(bs[0].id) ==>
      (MoveRefused(bs, i, j) <==> !InLeadingLooseRun(bs, j))
    ensures !bs[i].isFolder && bs[i].parentFolder != Some(bs[0].id) ==> !MoveRefused(bs, i, j)
  {
  }

  /**
   * Position `j` lies in the run of non-folders that follows position 0 and
   * ends at a folder: some folder comes after position 0, and none in `1..j`.
   */
  ghost predicate InLeadingLooseRun(bs: seq<Bookmark>, j: nat) {
    && (exists k :: 1 <= k < |bs| && bs[k].isFolder)
    && forall k :: 1 <= k <= j && k < |bs| ==> !bs[k].isFolder
  }

  /** The list with the records at `i` and `j` exchanged. */
  function Swap(bs: seq<Bookmark>, i: nat, j: nat): (r: seq<Bookmark>)
    requires i < |bs| && j < |bs|
    ensures |r| == |bs| && r[i] == bs[j] && r[j] == bs[i]
    ensures forall k :: 0 <= k < |bs| && k != i && k != j ==> r[k] == bs[k]
    ensures multiset(r) == multiset(bs)
  {
    bs[i := bs[j]][j := bs[i]]
  }

  /** Exchanging the same two positions again restores the list. */
  lemma SwapTwice(bs: seq<Bookmark>, i: nat, j: nat)
    requires i < |bs| && j < |bs|
    ensures Swap(Swap(bs, i, j), i, j) == bs
  {
    var r := Swap(Swap(bs, i, j), i, j);
    assert forall k :: 0 <= k < |bs| ==> r[k] == bs[k];
  }

  /** How many records the folder move lifts out: the folder and `children.length` more, as far as the list goes. */
  function BlockLength(bs: seq<Bookmark>, i: nat): (n: nat)
    requires i < |bs|
    ensures 1 <= n && i + n <= |bs|
  {
    SpliceCount(|bs|, i, ChildCount(bs, bs[i].id) + 1)
  }

  /** The run `bs[i..i+n]` taken out and put back at index `j` of what is left (at its end when `j` is past it). */
  function MoveBlock(bs: seq<Bookmark>, i: nat, n: nat, j: nat): (r: seq<Bookmark>)
    requires i + n <= |bs|
    ensures |r| == |bs|
  {
    var rest := bs[..i] + bs[i + n..];
    var at := if j <= |rest| then j else |rest|;
    rest[..at] + bs[i..i + n] + rest[at..]
  }

  /**
   * After a block move the run sits at the (clamped) target, and what is
   * left around it is the list with the run taken out, in order.
   */
  lemma MoveBlockParts(bs: seq<Bookmark>, i: nat, n: nat, j: nat)
    requires i + n <= |bs|
    ensures var r, at := MoveBlock(bs, i, n, j), if j <= |bs| - n then j else |bs| - n;
      && r[at..at + n] == bs[i..i + n]
      && r[..at] + r[at + n..] == bs[..i] + bs[i + n..]
  {
    var rest := bs[..i] + bs[i + n..];
    var at := if j <= |rest| then j else |rest|;
    var r := MoveBlock(bs, i, n, j);
    assert r[..at] + r[at + n..] == rest[..at] + rest[at..];
  }

  /** The two assignments `moveBookmark` makes, in its order, exchange the records. */
  lemma SwapInEitherOrder(bs: seq<Bookmark>, i: nat, j: nat)
    requires i < |bs| && j < |bs|
    ensures bs[j := bs[i]][i := bs[j]] == Swap(bs, i, j)
  {
    var r := bs[j := bs[i]][i := bs[j]];
    assert forall k :: 0 <= k < |bs| ==> r[k] == Swap(bs, i, j)[k];
  }

  /** The folder branch of `moveBookmark`, in the steps the code takes, is `MoveBlock`. */
  lemma FolderMoveSteps(bs: seq<Bookmark>, i: nat, j: nat, children: seq<Bookmark>, cut: Spliced<Bookmark>)
    requires i < |bs|
    requires children == Filter(bs, WithParent(Some(bs[i].id)))
    requires cut == Splice(bs, i, |children| + 1, [])
    ensures Splice(cut.after, j, 0, cut.removed).after == MoveBlock(bs, i, BlockLength(bs, i), j)
  {
    SpliceTwiceIsMoveBlock(bs, i, j);
  }

  /**
   * The two `splice` calls of the folder move (lift the folder and
   * `children.length` records at `i`, put them back at `j`) are MoveBlock.
   */
  lemma SpliceTwiceIsMoveBlock(bs: seq<Bookmark>, i: nat, j: nat)
    requires i < |bs|
    ensures var cut := Splice(bs, i, ChildCount(bs, bs[i].id) + 1, []);
      Splice(cut.after, j, 0, cut.removed).after == MoveBlock(bs, i, BlockLength(bs, i), j)
  {
    var n := BlockLength(bs, i);
    var cut := Splice(bs, i, ChildCount(bs, bs[i].id) + 1, []);
    FolderCut(bs, i);
    SpliceInsert(cut.after, j, cut.removed);
    MoveBlockOfParts(bs, i, n, j, cut.after, cut.removed);
  }

  /** MoveBlock, given the list without the run and the run itself. */
  lemma MoveBlockOfParts(bs: seq<Bookmark>, i: nat, n: nat, j: nat, rest: seq<Bookmark>, block: seq<Bookmark>)
    requires i + n <= |bs| && rest == bs[..i] + bs[i + n..] && block == bs[i..i + n]
    ensures var at := if j <= |rest| then j else |rest|;
      MoveBlock(bs, i, n, j) == rest[..at] + block + rest[at..]
  {
  }

  /** The first `splice` of the folder move lifts out `bs[i..i+n]` and leaves the rest in order. */
  lemma FolderCut(bs: seq<Bookmark>, i: nat)
    requires i < |bs|
    ensures var n, cut := BlockLength(bs, i), Splice(bs, i, ChildCount(bs, bs[i].id) + 1, []);
      cut.after == bs[..i] + bs[i + n..] && cut.removed == bs[i..i + n]
  {
    SpliceCut(bs, i, ChildCount(bs, bs[i].id) + 1);
  }


  /** A block move only reorders: the records and their multiplicities are kept. */
  lemma MoveBlockPermutes(bs: seq<Bookmark>, i: nat, n: nat, j: nat)
    requires i + n <= |bs|
    ensures multiset(MoveBlock(bs, i, n, j)) == multiset(bs)
  {
    var r := MoveBlock(bs, i, n, j);
    var at := if j <= |bs| - n then j else |bs| - n;
    MoveBlockParts(bs, i, n, j);
    calc {
      multiset(r);
      { SplitThree(r, at, at + n); }
      multiset(r[..at] + r[at..at + n] + r[at + n..]);
      multiset(r[..at]) + multiset(r[at + n..]) + multiset(r[at..at + n]);
      multiset(r[..at] + r[at + n..]) + multiset(bs[i..i + n]);
      multiset(bs[..i] + bs[i + n..]) + multiset(bs[i..i + n]);
      multiset(bs[..i]) + multiset(bs[i..i + n]) + multiset(bs[i + n..]);
      multiset(bs[..i] + bs[i..i + n] + bs[i + n..]);
      { SplitThree(bs, i, i + n); }
      multiset(bs);
    }
  }

  /** Moving the block back to where it came from restores the list. */
  lemma MoveBlockUndo(bs: seq<Bookmark>, i: nat, n: nat, j: nat)
    requires i + n <= |bs|
    ensures var at := if j <= |bs| - n then j else |bs| - n;
      MoveBlock(MoveBlock(bs, i, n, j), at, n, i) == bs
  {
    var r := MoveBlock(bs, i, n, j);
    var at := if j <= |bs| - n then j else |bs| - n;
    var back := MoveBlock(r, at, n, i);
    MoveBlockParts(bs, i, n, j);
    MoveBlockParts(r, at, n, i);
    assert i <= |bs| - n;
    assert back[..i] + back[i + n..] == bs[..i] + bs[i + n..];
    assert back[i..i + n] == bs[i..i + n];
    assert back == back[..i] + back[i..i + n] + back[i + n..];
    assert back[..i] == bs[..i] by {
      assert (back[..i] + back[i + n..])[..i] == back[..i];
      assert (bs[..i] + bs[i + n..])[..i] == bs[..i];
    }
    assert back[i + n..] == bs[i + n..] by {
      assert (back[..i] + back[i + n..])[i..] == back[i + n..];
      assert (bs[..i] + bs[i + n..])[i..] == bs[i + n..];
    }
    assert bs == bs[..i] + bs[i..i + n] + bs[i + n..];
  }

  /**
   * The writes `moveBookmark(id, newIndex)` makes: none when the guard
   * refuses; else one, the exchange of two records for an item and the
   * block move (target index taken before the removal) for a folder.
   */
  function MoveWrites(bs: seq<Bookmark>, id: string, newIndex: int): (r: seq<seq<Bookmark>>)
    requires MoveRequest(bs, id, newIndex)
    ensures |r| <= 1
    ensures r == [] <==> MoveRefused(bs, IndexOfId(bs, id), MoveTarget(bs, id, newIndex))
  {
    var i, j := IndexOfId(bs, id), MoveTarget(bs, id, newIndex);
    if MoveRefused(bs, i, j) then []
    else if !bs[i].isFolder then [Swap(bs, i, j)]
    else [MoveBlock(bs, i, BlockLength(bs, i), j)]
  }

  /** `MoveTarget` is the index `moveBookmark` computes step by step. */
  lemma MoveTargetSteps(bs: seq<Bookmark>, id: string, newIndex: int)
    requires MoveRequest(bs, id, newIndex)
    ensures var i := IndexOfId(bs, id); var siblings := Filter(bs, WithParent(bs[i].parentFolder));
      && 0 <= newIndex < |siblings|
      && MoveTarget(bs, id, newIndex) == IndexOfId(bs, siblings[newIndex].id)
  {
  }

  /** The write of a move the guard lets through, by the kind of record moved. */
  lemma MoveWritesWhenAllowed(bs: seq<Bookmark>, id: string, newIndex: int, i: nat, j: nat)
    requires MoveRequest(bs, id, newIndex)
    requires i == IndexOfId(bs, id) && j == MoveTarget(bs, id, newIndex) && !MoveRefused(bs, i, j)
    ensures !bs[i].isFolder ==> MoveWrites(bs, id, newIndex) == [Swap(bs, i, j)]
    ensures bs[i].isFolder ==> MoveWrites(bs, id, newIndex) == [MoveBlock(bs, i, BlockLength(bs, i), j)]
  {
  }

  /** Whatever `moveBookmark` writes is a permutation of the list it read. */
  lemma MoveWritesPermute(bs: seq<Bookmark>, id: string, newIndex: int)
    requires MoveRequest(bs, id, newIndex)
    ensures forall w :: w in MoveWrites(bs, id, newIndex) ==> |w| == |bs| && multiset(w) == multiset(bs)
  {
    var i, j := IndexOfId(bs, id), MoveTarget(bs, id, newIndex);
    if !MoveRefused(bs, i, j) && bs[i].isFolder {
      MoveBlockPermutes(bs, i, BlockLength(bs, i), j);
    }
  }

  /** With no folder after `Root`, a loose root item can never be moved. */
  lemma RootItemsStuckWithoutFolders(bs: seq<Bookmark>, id: string, newIndex: int)
    requires MoveRequest(bs, id, newIndex)
    requires forall k :: 1 <= k < |bs| ==> !bs[k].isFolder
    requires var b := bs[IndexOfId(bs, id)]; !b.isFolder && b.parentFolder == Some(bs[0].id)
    ensures MoveWrites(bs, id, newIndex) == []
  {
    assert LastNonFolderRoot(bs) == -1;
  }

  /**
   * Asking to move a record to the sibling index it already has writes the
   * list unchanged, or nothing at all.
   */
  lemma MoveToOwnIndexKeepsList(bs: seq<Bookmark>, id: string)
    requires UniqueIds(bs) && 0 <= IndexOfId(bs, id)
    ensures var i := IndexOfId(bs, id);
      var rank := |Filter(bs[..i], WithParent(bs[i].parentFolder))|;
      && MoveRequest(bs, id, rank)
      && forall w :: w in MoveWrites(bs, id, rank) ==> w == bs
  {
    var i := IndexOfId(bs, id);
    var p := WithParent(bs[i].parentFolder);
    var rank := |Filter(bs[..i], p)|;
    FilterRank(bs, i, p);
    assert Siblings(bs, bs[i].parentFolder)[rank] == bs[i];
    IndexOfUniqueId(bs, i);
    assert MoveTarget(bs, id, rank) == i;
    if !MoveRefused(bs, i, i) && bs[i].isFolder {
      MoveBlockInPlace(bs, i, BlockLength(bs, i));
    }
  }

  /** Putting a block back where it was leaves the list as it was. */
  lemma MoveBlockInPlace(bs: seq<Bookmark>, i: nat, n: nat)
    requires i + n <= |bs|
    ensures MoveBlock(bs, i, n, i) == bs
  {
    var r := MoveBlock(bs, i, n, i);
    MoveBlockParts(bs, i, n, i);
    assert r[..i] == bs[..i] by {
      assert (r[..i] + r[i + n..])[..i] == r[..i];
      assert (bs[..i] + bs[i + n..])[..i] == bs[..i];
    }
    assert r[i + n..] == bs[i + n..] by {
      assert (r[..i] + r[i + n..])[i..] == r[i + n..];
      assert (bs[..i] + bs[i + n..])[i..] == bs[i + n..];
    }
    SplitThree(r, i, i + n);
    SplitThree(bs, i, i + n);
  }

  // ---------------------------------------------------------------------
  // addBookmark

  /** `item => item.ParentFolder === parent && !item.isFolder` */
  function SiblingItem(parent: Option<string>): (r: Bookmark -> bool)
    ensures forall x :: r(x) <==> x.parentFolder == parent && !x.isFolder
  {
    (b: Bookmark) => b.parentFolder == parent && !b.isFolder
  }

  /**
   * `lastInNewItemParentFolder?.Id || bookmark.ParentFolder`: the id the new
   * record is placed after. For an item, the last loose item with the same
   * parent; for a folder, the last record of all (every record passes the
   * folder's filter). An absent or empty id falls back to the parent.
   */
  function AddAnchor(bs: seq<Bookmark>, b: Bookmark): (r: Option<string>)
    ensures b.isFolder && bs != [] && bs[|bs| - 1].id != "" ==> r == Some(bs[|bs| - 1].id)
  {
    var candidates := if b.isFolder then bs else Filter(bs, SiblingItem(b.parentFolder));
    if candidates != [] && candidates[|candidates| - 1].id != "" then
      Some(candidates[|candidates| - 1].id)
    else
      b.parentFolder
  }

  /** An anchor other than the parent is the id of a stored record the filter kept: any record for a folder, a loose sibling for an item. */
  lemma AddAnchorIsStoredCandidate(bs: seq<Bookmark>, b: Bookmark)
    ensures var r := AddAnchor(bs, b);
      r.Some? && r != b.parentFolder ==>
        exists k :: 0 <= k < |bs| && bs[k].id == r.value && (b.isFolder || SiblingItem(b.parentFolder)(bs[k]))
  {
    FilterMembers(bs, SiblingItem(b.parentFolder));
  }

  /** Where `addBookmark` inserts: one past the first record carrying the anchor id, or 0. */
  function AddIndex(bs: seq<Bookmark>, b: Bookmark): (k: nat)
    ensures k <= |bs|
    ensures 0 < k ==> AddAnchor(bs, b) == Some(bs[k - 1].id)
    ensures k == 0 <==> AddAnchor(bs, b).None? || IndexOfId(bs, AddAnchor(bs, b).value) == -1
  {
    match AddAnchor(bs, b)
    case None => 0
    case Some(anchor) => IndexOfId(bs, anchor) + 1
  }

  /** The list with `b` inserted at `k`; every other record keeps its relative order. */
  function Insert(bs: seq<Bookmark>, k: nat, b: Bookmark): (r: seq<Bookmark>)
    requires k <= |bs|
    ensures |r| == |bs| + 1 && r[k] == b
    ensures forall m :: 0 <= m < k ==> r[m] == bs[m]
    ensures forall m :: k < m < |r| ==> r[m] == bs[m - 1]
  {
    bs[..k] + [b] + bs[k..]
  }

  /** Taking the inserted record back out gives the list before the insertion. */
  lemma InsertThenCut(bs: seq<Bookmark>, k: nat, b: Bookmark)
    requires k <= |bs|
    ensures var r := Insert(bs, k, b); r[..k] + r[k + 1..] == bs
  {
    var r := Insert(bs, k, b);
    assert r[..k] == bs[..k];
    assert r[k + 1..] == bs[k..];
    assert bs == bs[..k] + bs[k..];
  }

  /** A `splice` that deletes nothing at `k` and adds `b` is Insert. */
  lemma InsertBySplice(bs: seq<Bookmark>, k: nat, b: Bookmark)
    requires k <= |bs|
    ensures Splice(bs, k, 0, [b]).after == Insert(bs, k, b)
  {
    SpliceInsert(bs, k, [b]);
  }

  /** Splicing `b` in one past the anchor's index is the write `AddWrites` describes. */
  lemma AddSpliceIsAddWrite(bs: seq<Bookmark>, b: Bookmark, anchorIndex: int)
    requires anchorIndex == match AddAnchor(bs, b) case None => -1 case Some(a) => IndexOfId(bs, a)
    ensures Splice(bs, anchorIndex + 1, 0, [b]).after == AddWrites(bs, b)[0]
  {
    InsertBySplice(bs, AddIndex(bs, b), b);
  }

  /** The one write `addBookmark(b)` makes. */
  function AddWrites(bs: seq<Bookmark>, b: Bookmark): (r: seq<seq<Bookmark>>)
    ensures |r| == 1
  {
    [Insert(bs, AddIndex(bs, b), b)]
  }

  /**
   * An item goes right after the last loose item sharing its parent, when
   * there is one (and its id is not empty).
   */
  lemma AddItemAfterLastSibling(bs: seq<Bookmark>, b: Bookmark)
    requires UniqueIds(bs) && !b.isFolder
    requires var c := Filter(bs, SiblingItem(b.parentFolder)); c != [] && c[|c| - 1].id != ""
    ensures var k := AddIndex(bs, b);
      && 0 < k
      && bs[k - 1].parentFolder == b.parentFolder && !bs[k - 1].isFolder
      && forall m :: k <= m < |bs| ==> !(bs[m].parentFolder == b.parentFolder && !bs[m].isFolder)
  {
    var last := FindLastIndex(bs, SiblingItem(b.parentFolder));
    ItemAnchorIsLastSibling(bs, b);
    IndexOfUniqueId(bs, last);
  }

  /** The anchor of an item with a loose sibling (of non-empty id) is the last such sibling. */
  lemma ItemAnchorIsLastSibling(bs: seq<Bookmark>, b: Bookmark)
    requires !b.isFolder
    requires var c := Filter(bs, SiblingItem(b.parentFolder)); c != [] && c[|c| - 1].id != ""
    ensures var last := FindLastIndex(bs, SiblingItem(b.parentFolder));
      0 <= last && AddAnchor(bs, b) == Some(bs[last].id)
  {
    FilterLast(bs, SiblingItem(b.parentFolder));
  }

  /**
   * An item with no loose sibling goes right after its parent record, or at
   * index 0 when no record carries the parent id.
   */
  lemma AddItemWithoutSiblings(bs: seq<Bookmark>, b: Bookmark)
    requires !b.isFolder
    requires forall m :: 0 <= m < |bs| ==> !(bs[m].parentFolder == b.parentFolder && !bs[m].isFolder)
    ensures b.parentFolder.Some? && 0 <= IndexOfId(bs, b.parentFolder.value) ==>
      AddIndex(bs, b) == IndexOfId(bs, b.parentFolder.value) + 1
    ensures b.parentFolder.None? || IndexOfId(bs, b.parentFolder.value) == -1 ==>
      AddIndex(bs, b) == 0
  {
    FilterNone(bs, SiblingItem(b.parentFolder));
  }

  /** A folder goes after the current last record (when that record's id is not empty). */
  lemma AddFolderAtEnd(bs: seq<Bookmark>, b: Bookmark)
    requires UniqueIds(bs) && b.isFolder && bs != [] && bs[|bs| - 1].id != ""
    ensures AddIndex(bs, b) == |bs|
  {
    IndexOfUniqueId(bs, |bs| - 1);
  }

  // ---------------------------------------------------------------------
  // editBookmark

  /**
   * The writes `editBookmark(b)` makes. Same parent: one write, the record
   * replaced in place. Otherwise two: first `addBookmark`'s (the pre-edit
   * list plus `b`), then the pre-edit list with index `i` spliced out; a
   * missing id gives `i` = -1, which splices out the last record.
   */
  function EditWrites(bs: seq<Bookmark>, b: Bookmark): (r: seq<seq<Bookmark>>)
    ensures var i := IndexOfId(bs, b.id);
      if 0 <= i && bs[i].parentFolder == b.parentFolder then
        |r| == 1 && |r[0]| == |bs| && r[0][i] == b
        && forall k :: 0 <= k < |bs| && k != i ==> r[0][k] == bs[k]
      else
        |r| == 2 && r[0] == AddWrites(bs, b)[0]
  {
    var i := IndexOfId(bs, b.id);
    if 0 <= i && bs[i].parentFolder == b.parentFolder then [bs[i := b]]
    else AddWrites(bs, b) + [Splice(bs, i, 1, []).after]
  }

  /** The same-parent branch of `editBookmark`, as one equation. */
  lemma EditInPlaceWrites(bs: seq<Bookmark>, b: Bookmark)
    requires var i := IndexOfId(bs, b.id); 0 <= i && bs[i].parentFolder == b.parentFolder
    ensures EditWrites(bs, b) == [bs[IndexOfId(bs, b.id) := b]]
  {
  }

  /** The changed-parent (or missing-id) branch of `editBookmark`, as one equation. */
  lemma EditReparentWrites(bs: seq<Bookmark>, b: Bookmark)
    requires var i := IndexOfId(bs, b.id); !(0 <= i && bs[i].parentFolder == b.parentFolder)
    ensures EditWrites(bs, b) == AddWrites(bs, b) + [Splice(bs, IndexOfId(bs, b.id), 1, []).after]
  {
  }

  /** When the parent changes, the write that persists no longer holds the record. */
  lemma EditToNewParentDropsRecord(bs: seq<Bookmark>, b: Bookmark)
    requires UniqueIds(bs)
    requires var i := IndexOfId(bs, b.id); 0 <= i && bs[i].parentFolder != b.parentFolder
    ensures var r := EditWrites(bs, b); var i := IndexOfId(bs, b.id);
      && |r| == 2
      && r[1] == bs[..i] + bs[i + 1..]
      && forall x :: x in r[1] ==> x.id != b.id
  {
    EditSecondWrite(bs, b);
    CutOutDropsId(bs, IndexOfId(bs, b.id));
  }

  /** When the parent changes, the second write is the pre-edit list with the record cut out. */
  lemma EditSecondWrite(bs: seq<Bookmark>, b: Bookmark)
    requires var i := IndexOfId(bs, b.id); 0 <= i && bs[i].parentFolder != b.parentFolder
    ensures var r, i := EditWrites(bs, b), IndexOfId(bs, b.id);
      |r| == 2 && r[1] == bs[..i] + bs[i + 1..]
  {
    var i := IndexOfId(bs, b.id);
    EditReparentWrites(bs, b);
    CutOneIsSlice(bs, i);
    SecondOfTwo(AddWrites(bs, b), Splice(bs, i, 1, []).after);
  }

  /** `splice(i, 1)` inside the list cuts out exactly the record at `i`. */
  lemma CutOneIsSlice(bs: seq<Bookmark>, i: nat)
    requires i < |bs|
    ensures Splice(bs, i, 1, []).after == bs[..i] + bs[i + 1..]
  {
    SpliceCut(bs, i, 1);
  }

  /** A one-write log followed by one more write holds two, the new one second. */
  lemma SecondOfTwo(ws: seq<seq<Bookmark>>, w: seq<Bookmark>)
    requires |ws| == 1
    ensures |ws + [w]| == 2 && (ws + [w])[1] == w
  {
  }

  /** With unique ids, cutting out the record at `i` leaves no record with its id. */
  lemma CutOutDropsId(bs: seq<Bookmark>, i: nat)
    requires UniqueIds(bs) && i < |bs|
    ensures forall x :: x in bs[..i] + bs[i + 1..] ==> x.id != bs[i].id
  {
    var rest := bs[..i] + bs[i + 1..];
    forall x | x in rest
      ensures x.id != bs[i].id
    {
      var m :| 0 <= m < |rest| && rest[m] == x;
      if m < i {
        assert x == bs[m];
      } else {
        assert x == bs[m + 1];
      }
    }
  }

  /**
   * Editing an id that is not in the list, with the submitted parent `null`
   * or a folder id, drops the list's last record.
   */
  lemma EditMissingIdDropsLast(bs: seq<Bookmark>, b: Bookmark)
    requires IndexOfId(bs, b.id) == -1 && bs != []
    ensures var r := EditWrites(bs, b); |r| == 2 && r[1] == bs[..|bs| - 1]
  {
  }

  // ---------------------------------------------------------------------
  // removeBookmark

  /** How many records `removeBookmark` asks `splice` to take out at `i`. */
  function RemoveCount(bs: seq<Bookmark>, i: nat): (n: nat)
    requires i < |bs|
    ensures !bs[i].isFolder ==> n == 1
    ensures bs[i].isFolder ==> n == |Filter(bs, WithParent(Some(bs[i].id)))| + 1
  {
    if bs[i].isFolder then ChildCount(bs, bs[i].id) + 1 else 1
  }

  /** The one write `removeBookmark(id)` makes. */
  function RemoveWrites(bs: seq<Bookmark>, id: string): (r: seq<seq<Bookmark>>)
    requires 0 <= IndexOfId(bs, id)
    ensures var i := IndexOfId(bs, id); var n := SpliceCount(|bs|, i, RemoveCount(bs, i));
      |r| == 1 && r[0] == bs[..i] + bs[i + n..]
  {
    var i := IndexOfId(bs, id);
    SpliceCut(bs, i, RemoveCount(bs, i));
    [Splice(bs, i, RemoveCount(bs, i), []).after]
  }

  /** Removing an item takes out exactly that record. */
  lemma RemoveItemExact(bs: seq<Bookmark>, id: string)
    requires UniqueIds(bs) && 0 <= IndexOfId(bs, id) && !bs[IndexOfId(bs, id)].isFolder
    ensures var r := RemoveWrites(bs, id)[0];
      && multiset(r) == multiset(bs) - multiset{bs[IndexOfId(bs, id)]}
      && forall x :: x in r ==> x.id != id
  {
    var i := IndexOfId(bs, id);
    var r := RemoveWrites(bs, id)[0];
    assert r == bs[..i] + bs[i + 1..];
    assert bs == bs[..i] + [bs[i]] + bs[i + 1..];
    CutOutDropsId(bs, i);
  }

  /**
   * The folder at `i` is followed at once by all of its children: the
   * contiguity the list is meant to keep.
   */
  ghost predicate ChildrenFollow(bs: seq<Bookmark>, i: nat)
    requires i < |bs|
  {
    var c := ChildCount(bs, bs[i].id);
    i + c < |bs| && forall k :: i < k <= i + c ==> bs[k].parentFolder == Some(bs[i].id)
  }

  /** `b => b.Id !== id && b.ParentFolder !== id` */
  function OutsideFolder(id: string): Bookmark -> bool {
    (b: Bookmark) => b.id != id && b.parentFolder != Some(id)
  }

  /** When a folder's children follow it, no child of it sits anywhere else. */
  lemma ChildrenOnlyAfterFolder(bs: seq<Bookmark>, i: nat)
    requires i < |bs| && ChildrenFollow(bs, i)
    ensures var c := ChildCount(bs, bs[i].id);
      forall k :: 0 <= k < |bs| && (k < i || i + c < k) ==> bs[k].parentFolder != Some(bs[i].id)
  {
    var c := ChildCount(bs, bs[i].id);
    var child := WithParent(Some(bs[i].id));
    NoChildOutsideRun(bs, i);
    FilterEmpty(bs[..i], child);
    FilterEmpty(bs[i + c + 1..], child);
    forall k | 0 <= k < |bs| && (k < i || i + c < k)
      ensures bs[k].parentFolder != Some(bs[i].id)
    {
      if k < i {
        assert bs[k] == bs[..i][k];
      } else {
        assert bs[k] == bs[i + c + 1..][k - (i + c + 1)];
      }
    }
  }

  /** All of a following folder's children are counted inside its run, so none is counted outside it. */
  lemma NoChildOutsideRun(bs: seq<Bookmark>, i: nat)
    requires i < |bs| && ChildrenFollow(bs, i)
    ensures var c, child := ChildCount(bs, bs[i].id), WithParent(Some(bs[i].id));
      Filter(bs[..i], child) == [] && Filter(bs[i + c + 1..], child) == []
  {
    var c := ChildCount(bs, bs[i].id);
    var child := WithParent(Some(bs[i].id));
    SplitThree(bs, i, i + c + 1);
    FilterOfParts(bs[..i], bs[i..i + c + 1], bs[i + c + 1..], child);
    RunHoldsChildren(bs, i, c);
  }

  /** A run of a folder followed by `c` of its children passes at least `c` records through the child filter. */
  lemma RunHoldsChildren(bs: seq<Bookmark>, i: nat, c: nat)
    requires i + c < |bs|
    requires forall k :: i < k <= i + c ==> bs[k].parentFolder == Some(bs[i].id)
    ensures c <= |Filter(bs[i..i + c + 1], WithParent(Some(bs[i].id)))|
  {
    var child := WithParent(Some(bs[i].id));
    FilterAllOfSlice(bs, i + 1, i + c + 1, child);
    assert bs[i..i + c + 1] == [bs[i]] + bs[i + 1..i + c + 1];
    FilterConcat([bs[i]], bs[i + 1..i + c + 1], child);
  }

  /**
   * When a folder's children follow it, the records `OutsideFolder` keeps
   * are exactly those outside the folder's run.
   */
  lemma OutsideFolderKeeps(bs: seq<Bookmark>, i: nat)
    requires UniqueIds(bs) && i < |bs| && ChildrenFollow(bs, i)
    ensures var c := ChildCount(bs, bs[i].id);
      KeepsOutsideRun(bs, i, i + c + 1, OutsideFolder(bs[i].id))
  {
    ChildrenOnlyAfterFolder(bs, i);
  }

  /**
   * Removing a folder whose children follow it removes exactly the folder
   * and its children, and keeps every other record in order.
   */
  lemma RemoveFolderCascades(bs: seq<Bookmark>, id: string)
    requires UniqueIds(bs) && 0 <= IndexOfId(bs, id)
    requires bs[IndexOfId(bs, id)].isFolder && ChildrenFollow(bs, IndexOfId(bs, id))
    ensures RemoveWrites(bs, id)[0] == Filter(bs, OutsideFolder(id))
  {
    var i := IndexOfId(bs, id);
    var c := ChildCount(bs, id);
    RemoveFolderWrites(bs, id);
    OutsideFolderKeeps(bs, i);
    FilterCutsRun(bs, i, i + c + 1, OutsideFolder(id));
  }

  /** Removing a folder whose children follow it cuts out exactly its run. */
  lemma RemoveFolderWrites(bs: seq<Bookmark>, id: string)
    requires 0 <= IndexOfId(bs, id)
    requires bs[IndexOfId(bs, id)].isFolder && ChildrenFollow(bs, IndexOfId(bs, id))
    ensures var i, c := IndexOfId(bs, id), ChildCount(bs, id);
      RemoveWrites(bs, id)[0] == bs[..i] + bs[i + c + 1..]
  {
    var i := IndexOfId(bs, id);
    assert RemoveCount(bs, i) == ChildCount(bs, id) + 1;
  }

  // ---------------------------------------------------------------------
  // Folder moves and the contiguity of runs

  /** What `filter` keeps of one record. */
  function Keep(x: Bookmark, p: Bookmark -> bool): (r: seq<Bookmark>)
    ensures r == Filter([x], p)
  {
    assert [x][1..] == [];
    if p(x) then [x] else []
  }

  /** `filter` over a list of six records, one record at a time. */
  lemma FilterSix(x0: Bookmark, x1: Bookmark, x2: Bookmark, x3: Bookmark, x4: Bookmark, x5: Bookmark, p: Bookmark -> bool)
    ensures Filter([x0, x1, x2, x3, x4, x5], p)
      == Keep(x0, p) + (Keep(x1, p) + (Keep(x2, p) + (Keep(x3, p) + (Keep(x4, p) + Keep(x5, p)))))
  {
    var t5, t4, t3 := [x5], [x4, x5], [x3, x4, x5];
    var t2, t1, t0 := [x2, x3, x4, x5], [x1, x2, x3, x4, x5], [x0, x1, x2, x3, x4, x5];
    assert t5[1..] == [] && t4[1..] == t5 && t3[1..] == t4;
    assert t2[1..] == t3 && t1[1..] == t2 && t0[1..] == t1;
    assert Filter(t5, p) == Keep(x5, p) + Filter([], p) == Keep(x5, p);
    assert Filter(t4, p) == Keep(x4, p) + Filter(t5, p);
    assert Filter(t3, p) == Keep(x3, p) + Filter(t4, p);
    assert Filter(t2, p) == Keep(x2, p) + Filter(t3, p);
    assert Filter(t1, p) == Keep(x1, p) + Filter(t2, p);
    assert Filter(t0, p) == Keep(x0, p) + Filter(t1, p);
  }

  /**
   * Six records with distinct ids: a top folder (`Root`), then folder A
   * with its one child, then folder B with its two children.
   */
  ghost predicate TwoFolders(bs: seq<Bookmark>) {
    && |bs| == 6 && UniqueIds(bs)
    && bs[0].isFolder && bs[0].parentFolder == None
    && bs[1].isFolder && bs[1].parentFolder == Some(bs[0].id)
    && !bs[2].isFolder && bs[2].parentFolder == Some(bs[1].id)
    && bs[3].isFolder && bs[3].parentFolder == Some(bs[0].id)
    && !bs[4].isFolder && bs[4].parentFolder == Some(bs[3].id)
    && !bs[5].isFolder && bs[5].parentFolder == Some(bs[3].id)
  }

  /** What moving A to sibling index 1 writes: A's run lands between B's two children. */
  function TwoFoldersMoved(bs: seq<Bookmark>): (r: seq<Bookmark>)
    requires |bs| == 6
    ensures |r| == 6
  {
    [bs[0], bs[3], bs[4], bs[1], bs[2], bs[5]]
  }

  /** The child counts and the siblings of A in such a list. */
  lemma TwoFoldersCounts(bs: seq<Bookmark>)
    requires TwoFolders(bs)
    ensures ChildCount(bs, bs[1].id) == 1 && ChildCount(bs, bs[3].id) == 2
    ensures Siblings(bs, Some(bs[0].id)) == [bs[1], bs[3]]
  {
    assert bs == [bs[0], bs[1], bs[2], bs[3], bs[4], bs[5]];
    FilterSix(bs[0], bs[1], bs[2], bs[3], bs[4], bs[5], WithParent(Some(bs[1].id)));
    FilterSix(bs[0], bs[1], bs[2], bs[3], bs[4], bs[5], WithParent(Some(bs[3].id)));
    FilterSix(bs[0], bs[1], bs[2], bs[3], bs[4], bs[5], WithParent(Some(bs[0].id)));
  }

  /** Before the move, the children of A and of B follow them, and moving A to sibling index 1 is a valid request. */
  lemma TwoFoldersContiguous(bs: seq<Bookmark>)
    requires TwoFolders(bs)
    ensures ChildrenFollow(bs, 1) && ChildrenFollow(bs, 3)
    ensures MoveRequest(bs, bs[1].id, 1) && MoveTarget(bs, bs[1].id, 1) == 3
  {
    TwoFoldersCounts(bs);
    IndexOfUniqueId(bs, 1);
    IndexOfUniqueId(bs, 3);
  }

  /** The block move of A's run to index 3 of what is left. */
  lemma TwoFoldersBlockMove(bs: seq<Bookmark>)
    requires |bs| == 6
    ensures MoveBlock(bs, 1, 2, 3) == TwoFoldersMoved(bs)
  {
    var r := MoveBlock(bs, 1, 2, 3);
    MoveBlockParts(bs, 1, 2, 3);
    assert r[3] == bs[1] && r[4] == bs[2];
    assert (r[..3] + r[5..])[0] == r[0] && (bs[..1] + bs[3..])[0] == bs[0];
    assert (r[..3] + r[5..])[1] == r[1] && (bs[..1] + bs[3..])[1] == bs[3];
    assert (r[..3] + r[5..])[2] == r[2] && (bs[..1] + bs[3..])[2] == bs[4];
    assert (r[..3] + r[5..])[3] == r[5] && (bs[..1] + bs[3..])[3] == bs[5];
    assert forall k :: 0 <= k < 6 ==> r[k] == TwoFoldersMoved(bs)[k];
  }

  /** The code moves A's run to B's pre-removal index, which is inside B's run. */
  lemma TwoFoldersMoveWrites(bs: seq<Bookmark>)
    requires TwoFolders(bs)
    ensures MoveRequest(bs, bs[1].id, 1)
    ensures MoveWrites(bs, bs[1].id, 1) == [TwoFoldersMoved(bs)]
  {
    TwoFoldersContiguous(bs);
    TwoFoldersCounts(bs);
    IndexOfUniqueId(bs, 1);
    assert LastNonFolderRoot(bs) == 0 by {
      assert bs[1..][0].isFolder;
    }
    assert BlockLength(bs, 1) == 2;
    TwoFoldersBlockMove(bs);
  }

  /** After the move B's children no longer follow it, and removing B takes A with it, leaving A's child and B's last child. */
  lemma TwoFoldersMovedBroken(bs: seq<Bookmark>)
    requires TwoFolders(bs)
    ensures var m := TwoFoldersMoved(bs);
      && !ChildrenFollow(m, 1)
      && RemoveWrites(m, bs[3].id) == [[bs[0], bs[2], bs[5]]]
  {
    var m := TwoFoldersMoved(bs);
    FilterSix(m[0], m[1], m[2], m[3], m[4], m[5], WithParent(Some(bs[3].id)));
    assert m == [m[0], m[1], m[2], m[3], m[4], m[5]];
    assert ChildCount(m, bs[3].id) == 2;
    assert m[3].parentFolder != Some(bs[3].id);
    assert IndexOfId(m, bs[3].id) == 1;
    assert RemoveCount(m, 1) == 3;
    assert m[..1] + m[4..] == [bs[0], bs[2], bs[5]];
  }

  /**
   * Moving folder A below folder B when A has fewer children than B: the
   * code reinserts A's run at B's index taken before the removal, which
   * then falls inside B's run. B's children no longer follow it, and
   * removing B then deletes A and leaves A's child and B's last child
   * without their folders.
   */
  lemma FolderMoveLandsInsideTarget(bs: seq<Bookmark>)
    requires TwoFolders(bs)
    ensures var m := TwoFoldersMoved(bs);
      && ChildrenFollow(bs, 1) && ChildrenFollow(bs, 3)
      && MoveRequest(bs, bs[1].id, 1)
      && MoveWrites(bs, bs[1].id, 1) == [m]
      && !ChildrenFollow(m, 1)
      && RemoveWrites(m, bs[3].id) == [[bs[0], bs[2], bs[5]]]
  {
    TwoFoldersContiguous(bs);
    TwoFoldersMoveWrites(bs);
    TwoFoldersMovedBroken(bs);
  }

  /** When a folder's children follow it, the folder move lifts out exactly the folder and its children. */
  lemma BlockLengthOfFollowing(bs: seq<Bookmark>, i: nat)
    requires i < |bs| && ChildrenFollow(bs, i)
    ensures BlockLength(bs, i) == ChildCount(bs, bs[i].id) + 1
  {
  }

  /**
   * The folder move the design describes: moving down, the run goes after
   * the target's whole run (the target's own children counted into the
   * offset); moving up, right before the target. The code omits the
   * target's children (`MoveWrites`).
   */
  function DesignedFolderMove(bs: seq<Bookmark>, i: nat, j: nat): (r: seq<Bookmark>)
    requires i < |bs| && j < |bs|
    ensures |r| == |bs| && multiset(r) == multiset(bs)
  {
    var n, m := BlockLength(bs, i), BlockLength(bs, j);
    var at := if i < j && n <= j + m then j + m - n else j;
    MoveBlockPermutes(bs, i, n, at);
    MoveBlock(bs, i, n, at)
  }

  /** Moving a run of `n` down past a later run of `m`: the later run comes first, then the moved one. */
  lemma MoveDownPastRun(bs: seq<Bookmark>, i: nat, n: nat, j: nat, m: nat, r: seq<Bookmark>, p: nat, q: nat)
    requires i + n <= j && j + m <= |bs|
    requires p == j + m - n && q == j - n && r == MoveBlock(bs, i, n, p)
    ensures r[p..p + n] == bs[i..i + n]
    ensures r[q..q + m] == bs[j..j + m]
  {
    MoveBlockParts(bs, i, n, p);
    forall k | q <= k < p
      ensures r[k] == bs[k + n]
    {
      assert r[k] == (r[..p] + r[p + n..])[k];
      assert (bs[..i] + bs[i + n..])[k] == bs[k + n];
    }
  }

  /** Moving a run of `n` up to an earlier run of `m`: the moved run comes first, then the earlier one. */
  lemma MoveUpBeforeRun(bs: seq<Bookmark>, i: nat, n: nat, j: nat, m: nat, r: seq<Bookmark>, p: nat, q: nat)
    requires j + m <= i && i + n <= |bs|
    requires p == j && q == j + n && r == MoveBlock(bs, i, n, p)
    ensures r[p..p + n] == bs[i..i + n]
    ensures r[q..q + m] == bs[j..j + m]
  {
    MoveBlockParts(bs, i, n, p);
    forall k | q <= k < q + m
      ensures r[k] == bs[k - n]
    {
      assert r[k] == (r[..p] + r[p + n..])[k - n];
      assert (bs[..i] + bs[i + n..])[k - n] == bs[k - n];
    }
  }

  /** The designed move is the block move of the folder's run to the position it picks. */
  lemma DesignedIsBlockMove(bs: seq<Bookmark>, i: nat, j: nat, n: nat, m: nat, r: seq<Bookmark>, p: nat)
    requires i < |bs| && j < |bs| && n == BlockLength(bs, i) && m == BlockLength(bs, j)
    requires r == DesignedFolderMove(bs, i, j) && p == (if i < j && n <= j + m then j + m - n else j)
    ensures r == MoveBlock(bs, i, n, p) && multiset(r) == multiset(bs)
  {
  }

  /** A folder's run copied whole into a permutation of the list is again followed by all its children. */
  lemma RunStillFollows(bs: seq<Bookmark>, i: nat, n: nat, r: seq<Bookmark>, p: nat)
    requires i < |bs| && ChildrenFollow(bs, i) && multiset(r) == multiset(bs)
    requires n == ChildCount(bs, bs[i].id) + 1 && i + n <= |bs| && p + n <= |r| && r[p..p + n] == bs[i..i + n]
    ensures ChildrenFollow(r, p)
  {
    var c := n - 1;
    FilterLengthOfPermutation(r, bs, WithParent(Some(bs[i].id)));
    assert r[p] == r[p..p + n][0];
    forall k | p < k <= p + c
      ensures r[k].parentFolder == Some(r[p].id)
    {
      assert r[k] == r[p..p + n][k - p] == bs[i + (k - p)];
    }
  }

  /**
   * The designed move of a folder down past a later folder keeps both runs
   * whole: the target comes first, followed by all its children, then the
   * moved folder, followed by all of its own.
   */
  lemma DesignedMoveDown(bs: seq<Bookmark>, i: nat, j: nat, n: nat, m: nat, r: seq<Bookmark>, p: nat, q: nat)
    requires i < |bs| && j < |bs| && ChildrenFollow(bs, i) && ChildrenFollow(bs, j)
    requires n == BlockLength(bs, i) && m == BlockLength(bs, j) && r == DesignedFolderMove(bs, i, j)
    requires i + n <= j && p == j + m - n && q == j - n
    ensures p + n <= |r| && q + m <= |r|
    ensures r[p..p + n] == bs[i..i + n] && ChildrenFollow(r, p)
    ensures r[q..q + m] == bs[j..j + m] && ChildrenFollow(r, q)
  {
    DesignedIsBlockMove(bs, i, j, n, m, r, p);
    BlockLengthOfFollowing(bs, i);
    BlockLengthOfFollowing(bs, j);
    MoveDownPastRun(bs, i, n, j, m, r, p, q);
    RunStillFollows(bs, i, n, r, p);
    RunStillFollows(bs, j, m, r, q);
  }

  /**
   * The designed move of a folder up to an earlier folder keeps both runs
   * whole: the moved folder comes first, followed by all its children, then
   * the target, followed by all of its own.
   */
  lemma DesignedMoveUp(bs: seq<Bookmark>, i: nat, j: nat, n: nat, m: nat, r: seq<Bookmark>, p: nat, q: nat)
    requires i < |bs| && j < |bs| && ChildrenFollow(bs, i) && ChildrenFollow(bs, j)
    requires n == BlockLength(bs, i) && m == BlockLength(bs, j) && r == DesignedFolderMove(bs, i, j)
    requires j + m <= i && p == j && q == j + n
    ensures p + n <= |r| && q + m <= |r|
    ensures r[p..p + n] == bs[i..i + n] && ChildrenFollow(r, p)
    ensures r[q..q + m] == bs[j..j + m] && ChildrenFollow(r, q)
  {
    DesignedIsBlockMove(bs, i, j, n, m, r, p);
    BlockLengthOfFollowing(bs, i);
    BlockLengthOfFollowing(bs, j);
    MoveUpBeforeRun(bs, i, n, j, m, r, p, q);
    RunStillFollows(bs, i, n, r, p);
    RunStillFollows(bs, j, m, r, q);
  }

  // ---------------------------------------------------------------------
  // The hook

  /**
   * The object `useSettingsUtilities` returns, over the setting it read
   * and the log of everything it wrote through `client.setAdminSetting`.
   */
  class Utilities {
    /** `context.settings.bookmarks` when the hook ran: `None` when unset or empty. */
    const stored: Option<seq<Bookmark>>
    /** Every list written back, oldest first. */
    var writes: seq<seq<Bookmark>>

    constructor(stored: Option<seq<Bookmark>>)
      ensures this.stored == stored && writes == []
    {
      this.stored := stored;
      writes := [];
    }

    method MoveBookmark(bookmarkId: string, newIndex: int)
      requires MoveRequest(GetBookmarks(stored), bookmarkId, newIndex)
      modifies this
      ensures writes == old(writes) + MoveWrites(GetBookmarks(stored), bookmarkId, newIndex)
    {
      var current := GetBookmarks(stored);
      MoveTargetSteps(current, bookmarkId, newIndex);
      var currentIndex := IndexOfId(current, bookmarkId);
      var currentBookmark := current[currentIndex];
      var siblings := Filter(current, WithParent(currentBookmark.parentFolder));
      var movable := siblings[newIndex];
      var newIndexGeneral := IndexOfId(current, movable.id);
      var lastNonFolderRoot := LastNonFolderRoot(current);
      var isInRoot := currentBookmark.parentFolder == Some(current[0].id);
      if (currentBookmark.isFolder && newIndexGeneral <= lastNonFolderRoot)
        || (isInRoot && !currentBookmark.isFolder && newIndexGeneral > lastNonFolderRoot)
      {
        return;
      }
      ghost var before := current;
      MoveWritesWhenAllowed(before, bookmarkId, newIndex, currentIndex, newIndexGeneral);
      if !currentBookmark.isFolder {
        var movableBookmark := current[newIndexGeneral];
        current := current[newIndexGeneral := currentBookmark];
        current := current[currentIndex := movableBookmark];
        SwapInEitherOrder(before, currentIndex, newIndexGeneral);
      } else {
        var children := Filter(current, WithParent(Some(currentBookmark.id)));
        var cut := Splice(current, currentIndex, |children| + 1, []);
        var allItems := cut.removed;
        current := cut.after;
        current := Splice(current, newIndexGeneral, 0, allItems).after;
        FolderMoveSteps(before, currentIndex, newIndexGeneral, children, cut);
      }
      writes := writes + [current];
    }

    method AddBookmark(bookmark: Bookmark)
      modifies this
      ensures writes == old(writes) + AddWrites(GetBookmarks(stored), bookmark)
    {
      var current := GetBookmarks(stored);
      var lastInParent := if bookmark.isFolder then current
        else Filter(current, SiblingItem(bookmark.parentFolder));
      var anchor := if lastInParent != [] && lastInParent[|lastInParent| - 1].id != ""
        then Some(lastInParent[|lastInParent| - 1].id) else bookmark.parentFolder;
      assert anchor == AddAnchor(current, bookmark);
      var anchorIndex := if anchor.None? then -1 else IndexOfId(current, anchor.value);
      AddSpliceIsAddWrite(current, bookmark, anchorIndex);
      current := Splice(current, anchorIndex + 1, 0, [bookmark]).after;
      writes := writes + [current];
    }

    method EditBookmark(bookmark: Bookmark)
      modifies this
      ensures writes == old(writes) + EditWrites(GetBookmarks(stored), bookmark)
    {
      var current := GetBookmarks(stored);
      var currentIndex := IndexOfId(current, bookmark.id);
      ghost var before := current;
      if 0 <= currentIndex && current[currentIndex].parentFolder == bookmark.parentFolder {
        current := current[currentIndex := bookmark];
        writes := writes + [current];
        EditInPlaceWrites(before, bookmark);
      } else {
        current := Splice(current, currentIndex, 1, []).after;
        AddBookmark(bookmark);
        ghost var added := writes;
        writes := writes + [current];
        assert writes == old(writes) + (AddWrites(before, bookmark) + [current]) by {
          assert added == old(writes) + AddWrites(before, bookmark);
        }
        EditReparentWrites(before, bookmark);
      }
    }

    method RemoveBookmark(bookmarkId: string)
      requires 0 <= IndexOfId(GetBookmarks(stored), bookmarkId)
      modifies this
      ensures writes == old(writes) + RemoveWrites(GetBookmarks(stored), bookmarkId)
    {
      var current := GetBookmarks(stored);
      var index := IndexOfId(current, bookmarkId);
      var bookmark := current[index];
      if bookmark.isFolder {
        var children := Filter(current, WithParent(Some(bookmarkId)));
        current := Splice(current, index, |children| + 1, []).after;
      } else {
        current := Splice(current, index, 1, []).after;
      }
      writes := writes + [current];
    }
  }
}
