/// The bookmark record (`IBookmark`) and the facts about a list of them
/// that the mutations and the drag list rely on.
module Bookmarks {
  import opened Js

  /**
   * One persisted record. `parentFolder` is `None` for `null` and `Some`
   * for an id; an `undefined` parent has no value of its own here. An
   * absent `isFolder` reads as `false`, which is how the code tests it.
   */
  datatype Bookmark = Bookmark(
    name: string,
    url: string,
    description: string,
    id: string,
    parentFolder: Option<string>,
    isFolder: bool)

  /** `b => b.Id === id` */
  function WithId(id: string): Bookmark -> bool {
    (b: Bookmark) => b.id == id
  }

  /** `b => b.ParentFolder === parent` */
  function WithParent(parent: Option<string>): Bookmark -> bool {
    (b: Bookmark) => b.parentFolder == parent
  }

  /** `e => e.isFolder` */
  function IsFolder(): Bookmark -> bool {
    (b: Bookmark) => b.isFolder
  }

  /** No two records share an `Id`. */
  ghost predicate UniqueIds(bs: seq<Bookmark>) {
    forall i, j :: 0 <= i < j < |bs| ==> bs[i].id != bs[j].id
  }

  /** `bs.findIndex((b) => b.Id === id)` */
  function IndexOfId(bs: seq<Bookmark>, id: string): (r: int)
    ensures -1 <= r < |bs|
    ensures 0 <= r ==> bs[r].id == id && forall k :: 0 <= k < r ==> bs[k].id != id
    ensures r == -1 <==> forall k :: 0 <= k < |bs| ==> bs[k].id != id
  {
    FindIndex(bs, WithId(id))
  }

  /** With unique ids, the record found for an id is the only one carrying it. */
  lemma IndexOfUniqueId(bs: seq<Bookmark>, k: nat)
    requires UniqueIds(bs) && k < |bs|
    ensures IndexOfId(bs, bs[k].id) == k
  {
    var r := IndexOfId(bs, bs[k].id);
    assert r != -1 by {
      assert bs[k].id == bs[k].id;
    }
  }

  /** The number of records whose `ParentFolder` is the given folder id. */
  function ChildCount(bs: seq<Bookmark>, folderId: string): (r: nat)
    ensures r <= |bs|
  {
    |Filter(bs, WithParent(Some(folderId)))|
  }
}
