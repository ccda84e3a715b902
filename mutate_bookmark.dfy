/// The Add / Edit form for a bookmark or a folder (`MutateBookmark`): the
/// URL pattern and the required fields, the defaults the form starts from,
/// the options of the parent-folder dropdown, and `submit`, which hands the
/// record to `addBookmark` or `editBookmark`.
module MutateBookmark {
  import opened Js
  import opened Bookmarks
  import opened SettingsUtilities

  // ---------------------------------------------------------------------
  // The URL pattern /^https:\/\/[a-zA-Z0-9\-\.]+\.[a-zA-Z]{2,}(\/\S*)?$/

  const Scheme: string := "https://"

  /** `[a-zA-Z]` */
  predicate IsAsciiLetter(c: char) {
    'a' <= c <= 'z' || 'A' <= c <= 'Z'
  }

  /** `[a-zA-Z0-9\-\.]` */
  predicate IsHostChar(c: char) {
    IsAsciiLetter(c) || '0' <= c <= '9' || c == '-' || c == '.'
  }

  /** `\s` in a JavaScript regular expression: white space and line terminators. */
  predicate IsJsWhitespace(c: char) {
    || c == '\t' || c == '\n' || c == '\U{000B}' || c == '\U{000C}' || c == '\r' || c == ' '
    || c == '\U{00A0}' || c == '\U{1680}' || '\U{2000}' <= c <= '\U{200A}'
    || c == '\U{2028}' || c == '\U{2029}' || c == '\U{202F}' || c == '\U{205F}'
    || c == '\U{3000}' || c == '\U{FEFF}'
  }

  /**
   * The pattern read piece by piece, with the host ending at `e`: `https://`,
   * host characters up to the dot at `d`, at least two letters up to `e`,
   * then the end, or `/` followed by non-white-space characters only.
   */
  ghost predicate PatternAt(s: string, d: int, e: int) {
    && |s| >= |Scheme| && s[..|Scheme|] == Scheme
    && |Scheme| < d && d + 3 <= e <= |s|
    && (forall k :: |Scheme| <= k < d ==> IsHostChar(s[k]))
    && s[d] == '.'
    && (forall k :: d < k < e ==> IsAsciiLetter(s[k]))
    && (e == |s| || (s[e] == '/' && forall k :: e < k < |s| ==> !IsJsWhitespace(s[k])))
  }

  /** The regular expression matches `s`: some split of `s` fits the pattern. */
  ghost predicate MatchesUrlPattern(s: string) {
    exists d, e :: PatternAt(s, d, e)
  }

  /** The first position at or after `i` holding `c`, or `|s|`. */
  function FirstFrom(s: string, i: nat, c: char): (r: nat)
    requires i <= |s|
    ensures i <= r <= |s|
    ensures r < |s| ==> s[r] == c
    ensures forall k :: i <= k < r ==> s[k] != c
    decreases |s| - i
  {
    if i == |s| then |s|
    else if s[i] == c then i
    else FirstFrom(s, i + 1, c)
  }

  /** The last position in `[lo, hi)` holding `c`, or `lo - 1`. */
  function LastIn(s: string, lo: nat, hi: nat, c: char): (r: int)
    requires lo <= hi <= |s|
    ensures lo - 1 <= r < hi
    ensures r >= lo ==> s[r] == c
    ensures forall k :: r < k < hi && lo <= k ==> s[k] != c
    decreases hi - lo
  {
    if hi == lo then lo - 1
    else if s[hi - 1] == c then hi - 1
    else LastIn(s, lo, hi - 1, c)
  }

  /**
   * The URL check the form runs. The host can hold no `/`, so it ends at the
   * first `/` after the scheme; its letters-only suffix can hold no dot, so
   * the dot before it is the host's last one.
   */
  function UrlAccepted(s: string): (r: bool)
    ensures r ==> |s| >= |Scheme| + 4 && s[..|Scheme|] == Scheme
  {
    && |s| >= |Scheme| && s[..|Scheme|] == Scheme
    && var e := FirstFrom(s, |Scheme|, '/');
       var d := LastIn(s, |Scheme|, e, '.');
       && |Scheme| < d && d + 3 <= e
       && (forall k :: |Scheme| <= k < d ==> IsHostChar(s[k]))
       && (forall k :: d < k < e ==> IsAsciiLetter(s[k]))
       && (forall k :: e < k < |s| ==> !IsJsWhitespace(s[k]))
  }

  /** The check accepts exactly the strings the regular expression matches. */
  lemma UrlAcceptedMatchesPattern(s: string)
    ensures UrlAccepted(s) <==> MatchesUrlPattern(s)
  {
    if UrlAccepted(s) {
      var e := FirstFrom(s, |Scheme|, '/');
      var d := LastIn(s, |Scheme|, e, '.');
      assert PatternAt(s, d, e);
    }
    if MatchesUrlPattern(s) {
      var d, e :| PatternAt(s, d, e);
      assert FirstFrom(s, |Scheme|, '/') == e by {
        assert forall k :: |Scheme| <= k < e ==> s[k] != '/' by {
          forall k | |Scheme| <= k < e
            ensures s[k] != '/'
          {
            if k < d {
              assert IsHostChar(s[k]);
            } else if d < k {
              assert IsAsciiLetter(s[k]);
            }
          }
        }
      }
      assert LastIn(s, |Scheme|, e, '.') == d by {
        assert forall k :: d < k < e ==> s[k] != '.' by {
          forall k | d < k < e
            ensures s[k] != '.'
          {
            assert IsAsciiLetter(s[k]);
          }
        }
      }
    }
  }

  /** A plain host with a two-letter-or-longer ending passes. */
  lemma UrlAcceptsPlainHost()
    ensures UrlAccepted("https://a.io")
  {
    var s := "https://a.io";
    assert FirstFrom(s, 8, '/') == |s|;
    assert LastIn(s, 8, |s|, '.') == 9;
  }

  /** The scheme must be `https`. */
  lemma UrlRefusesHttp()
    ensures !UrlAccepted("http://deskpro.com")
  {
    assert "http://deskpro.com"[..8] != Scheme by {
      assert "http://deskpro.com"[4] != Scheme[4];
    }
  }

  /** White space after the host is refused. */
  lemma UrlRefusesSpaceInPath()
    ensures !UrlAccepted("https://a.io/ b")
  {
    var s := "https://a.io/ b";
    assert FirstFrom(s, 8, '/') == 12;
    assert IsJsWhitespace(s[13]);
  }

  // ---------------------------------------------------------------------
  // The form

  /** `type: "Add" | "Edit"` */
  datatype FormType = Add | Edit

  /**
   * The field rules: `Name` is required on both forms; `URL` exists, and is
   * required and checked against the pattern, only when `objectName` is
   * "Bookmark". A required text field is missing when it is empty.
   */
  function FormValid(objectName: string, data: Bookmark): (r: bool)
    ensures r ==> data.name != ""
    ensures objectName != "Bookmark" ==> (r <==> data.name != "")
    ensures objectName == "Bookmark" ==> (r <==> data.name != "" && MatchesUrlPattern(data.url))
  {
    UrlAcceptedMatchesPattern(data.url);
    var nameOk := data.name != "";
    var urlOk := objectName != "Bookmark" || (data.url != "" && UrlAccepted(data.url));
    nameOk && urlOk
  }

  /** The record `submit` passes on: `isFolder` forced for a folder form, every other field as entered. */
  function SubmittedRecord(objectName: string, data: Bookmark): (r: Bookmark)
    ensures objectName == "Folder" ==> r.isFolder
    ensures objectName != "Folder" ==> r == data
    ensures r.(isFolder := data.isFolder) == data
  {
    if objectName == "Folder" then data.(isFolder := true) else data
  }

  /**
   * `submit(data)`: force `isFolder` on a folder form, then exactly one
   * call: `addBookmark` for an Add form, `editBookmark` otherwise.
   */
  method Submit(utilities: Utilities, formType: FormType, objectName: string, data: Bookmark)
    modifies utilities
    ensures var record := SubmittedRecord(objectName, data);
      var current := GetBookmarks(utilities.stored);
      utilities.writes == old(utilities.writes) + match formType
        case Add => AddWrites(current, record)
        case Edit => EditWrites(current, record)
  {
    var record := data;
    if objectName == "Folder" {
      record := record.(isFolder := true);
    }
    if formType == Add {
      utilities.AddBookmark(record);
      return;
    }
    utilities.EditBookmark(record);
  }

  /**
   * Adding from the folder form appends the new folder at the end of the
   * list (when the last record's id is not empty).
   */
  lemma AddFolderFormAppends(bs: seq<Bookmark>, data: Bookmark)
    requires UniqueIds(bs) && bs != [] && bs[|bs| - 1].id != ""
    ensures var record := SubmittedRecord("Folder", data);
      AddWrites(bs, record) == [bs + [record]]
  {
    var record := SubmittedRecord("Folder", data);
    AddFolderAtEnd(bs, record);
    var r := Insert(bs, |bs|, record);
    assert r == bs + [record];
  }

  // ---------------------------------------------------------------------
  // The parent-folder dropdown

  /** A dropdown entry: `value` is the folder id, `text` the label shown. */
  datatype FolderOption = FolderOption(value: string, text: string)

  /** The label of a folder: "No Parent" for the folder named "Root". */
  function FolderLabel(folder: Bookmark): (r: string)
    ensures folder.name == "Root" ==> r == "No Parent"
    ensures folder.name != "Root" ==> r == folder.name
  {
    if folder.name == "Root" then "No Parent" else folder.name
  }

  /** `parentFolders.map((e) => ({ value: e.Id, label: … }))` */
  function FolderOptions(folders: seq<Bookmark>): (r: seq<FolderOption>)
    ensures |r| == |folders|
    ensures forall i :: 0 <= i < |r| ==> r[i].value == folders[i].id && r[i].text == FolderLabel(folders[i])
  {
    seq(|folders|, i requires 0 <= i < |folders| => FolderOption(folders[i].id, FolderLabel(folders[i])))
  }

  /**
   * The options the form offers are the stored folders, one each, in their
   * stored order: the `i`-th option is the `i`-th folder of the store.
   */
  lemma FolderOptionsAreStoredFolders(stored: Option<seq<Bookmark>>)
    ensures var folders := GetParentFolders(stored);
      var options := FolderOptions(folders);
      && |options| == |folders|
      && IsSubsequence(folders, GetBookmarks(stored))
      && forall i :: 0 <= i < |options| ==>
           && folders[i] in GetBookmarks(stored) && folders[i].isFolder
           && options[i] == FolderOption(folders[i].id, FolderLabel(folders[i]))
  {
    var folders := GetParentFolders(stored);
    ParentFoldersExact(stored);
    assert forall i :: 0 <= i < |folders| ==> folders[i] in folders;
  }

  /**
   * `parentFolders.find((e) => e.value === parent)?.text || ""`: what the
   * dropdown shows for the current `ParentFolder`.
   */
  function ShownLabel(options: seq<FolderOption>, parent: Option<string>): (r: string)
    ensures parent.None? ==> r == ""
    ensures parent.Some? && (forall k :: 0 <= k < |options| ==> options[k].value != parent.value) ==> r == ""
    ensures forall k ::
      (0 <= k < |options| && Some(options[k].value) == parent
       && forall m :: 0 <= m < k ==> options[m].value != options[k].value)
      ==> r == options[k].text
  {
    match parent
    case None => ""
    case Some(p) =>
      match Find(options, (o: FolderOption) => o.value == p)
      case None => ""
      case Some(o) => o.text
  }

  // ---------------------------------------------------------------------
  // The defaults

  /** `fs[k]` is the first folder of `fs` named "Root": the one `find` returns. */
  predicate IsFirstRoot(fs: seq<Bookmark>, k: int) {
    0 <= k < |fs| && fs[k].name == "Root" && forall m :: 0 <= m < k ==> fs[m].name != "Root"
  }

  /**
   * `getParentFolders().find((e) => e.Name === "Root")?.Id`: the id of the
   * first stored folder named "Root", when there is one. Folder names are
   * free text, so there may be several.
   */
  function RootFolderId(stored: Option<seq<Bookmark>>): (r: Option<string>)
    ensures r.Some? <==> exists b :: b in GetBookmarks(stored) && b.isFolder && b.name == "Root"
    ensures var fs := GetParentFolders(stored);
      r.Some? ==> exists k :: IsFirstRoot(fs, k) && fs[k].id == r.value
  {
    var folders := GetParentFolders(stored);
    var named := (b: Bookmark) => b.name == "Root";
    match Find(folders, named)
    case None => None
    case Some(b) =>
      var k := FindIndex(folders, named);
      assert IsFirstRoot(folders, k) && b in folders;
      Some(b.id)
  }

  /**
   * The values an Add form starts from: `ParentFolder` the Root folder's id
   * (absent when there is no such folder), `Id` a fresh uuid.
   */
  datatype AddFormDefaults = AddFormDefaults(parentFolder: Option<string>, id: string)

  /**
   * The Add form's reset: the parent is the first stored folder named
   * "Root", absent exactly when no folder has that name; the id is fresh.
   */
  function AddDefaults(stored: Option<seq<Bookmark>>, freshId: string): (r: AddFormDefaults)
    ensures r.id == freshId
    ensures var fs := GetParentFolders(stored);
      && (r.parentFolder.None? <==> forall k :: 0 <= k < |fs| ==> fs[k].name != "Root")
      && (r.parentFolder.Some? ==> exists k :: IsFirstRoot(fs, k) && fs[k].id == r.parentFolder.value)
  {
    ParentFoldersExact(stored);
    AddFormDefaults(RootFolderId(stored), freshId)
  }

  /**
   * What the Edit form's effect does: `NoReset` when it returns early on
   * an empty `objectId`, otherwise `ResetTo(record)`. A `ResetTo(None)` is
   * `reset(undefined)`: the form goes back to its default values. Either
   * reset also clears the form's errors, the manual URL error included.
   */
  datatype EditReset = NoReset | ResetTo(record: Option<Bookmark>)

  /**
   * The Edit form's reset: none for an empty `objectId`; otherwise a reset
   * to the first stored record with the id, or to the defaults when no
   * record has it.
   */
  function EditDefaults(stored: Option<seq<Bookmark>>, objectId: string): (r: EditReset)
    ensures r.NoReset? <==> objectId == ""
    ensures r.ResetTo? ==> (r.record.None? <==> IndexOfId(GetBookmarks(stored), objectId) == -1)
    ensures r.ResetTo? && r.record.Some? ==>
      r.record.value == GetBookmarks(stored)[IndexOfId(GetBookmarks(stored), objectId)]
    ensures r.ResetTo? && r.record.Some? ==> r.record.value.id == objectId
  {
    if objectId == "" then NoReset else ResetTo(Find(GetBookmarks(stored), WithId(objectId)))
  }

  /**
   * On a store holding nothing yet, a new record's parent defaults to the
   * one default folder, and the dropdown shows that folder as "No Parent".
   */
  lemma DefaultStoreDefaults(freshId: string)
    ensures AddDefaults(None, freshId).parentFolder == Some(RootId)
    ensures FolderOptions(GetParentFolders(None)) == [FolderOption(RootId, "No Parent")]
    ensures ShownLabel(FolderOptions(GetParentFolders(None)), Some(RootId)) == "No Parent"
  {
    var bs := GetBookmarks(None);
    assert GetParentFolders(None) == bs by {
      FilterAll(bs, IsFolder());
    }
  }
}
