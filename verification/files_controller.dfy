/**
 * The file handlers: upload, show one, list a folder's children a page at a
 * time, publish and unpublish, and the access decision for reading content.
 *
 * The read-only handlers are functions over the table. Upload and the two
 * visibility handlers change the store in place; they are methods of
 * `FileStore`, each proved against a function (`Upload`, `SetPublic`) that
 * gives its response and the new table, and the properties the handlers
 * promise are lemmas about those functions.
 */
module FilesController {
  import opened Basics
  import opened ObjectIds
  import opened PageQuery
  import opened FileTable

  /** How many nodes one listing page holds. */
  const PageSize: nat := 20

  datatype FileError =
    | MissingName | MissingType | MissingData | ParentNotFound | ParentNotAFolder
    | NotFound | Unauthorized | FolderHasNoContent

  /** The HTTP status each error is answered with. */
  function Status(e: FileError): nat {
    match e
    case NotFound => 404
    case Unauthorized => 401
    case _ => 400
  }

  /** A job of the thumbnail queue. */
  datatype Job = Job(userId: nat, fileId: nat)

  // ---------------------------------------------------------------------
  // postUpload

  /** The fields of an upload body; a falsy `parentId` is absent. */
  datatype UploadRequest = UploadRequest(
    name: Option<string>,
    ftype: Option<string>,
    parentId: Option<string>,
    isPublic: Option<bool>,
    data: Option<string>)

  /** An absent parent, or the parent "0", means the root. */
  predicate IsRootArg(p: Option<string>) {
    p.None? || p.value == "" || p.value == "0"
  }

  /** The five checks of an upload, in the order they are made. */
  predicate NameGiven(req: UploadRequest) {
    !Missing(req.name)
  }

  predicate TypeAccepted(req: UploadRequest) {
    req.ftype.Some? && req.ftype.value in {"folder", "file", "image"}
  }

  predicate DataGiven(req: UploadRequest) {
    !Missing(req.data) || req.ftype == Some("folder")
  }

  predicate ParentExists(files: seq<FileNode>, req: UploadRequest) {
    IsRootArg(req.parentId) ||
    exists j :: 0 <= j < |files| && files[j].id == Key(req.parentId.value)
  }

  predicate ParentIsAFolder(files: seq<FileNode>, req: UploadRequest) {
    IsRootArg(req.parentId) ||
    (var k := IndexOf(files, Key(req.parentId.value));
     k.Some? && files[k.value].ftype == Folder)
  }

  /**
   * The outcome of an upload on a table: the first failing check, or the
   * node to insert. The node gets the next id, the requester as owner, the
   * given name and type, `isPublic` defaulting to false, the root or the
   * named folder as parent, and the fresh storage locator unless it is a folder.
   */
  function Upload(files: seq<FileNode>, nextId: nat, owner: nat, req: UploadRequest, locator: string)
    : (r: Result<FileNode, FileError>)
    ensures r == Err(MissingName) <==> !NameGiven(req)
    ensures r == Err(MissingType) <==> NameGiven(req) && !TypeAccepted(req)
    ensures r == Err(MissingData) <==> NameGiven(req) && TypeAccepted(req) && !DataGiven(req)
    ensures r == Err(ParentNotFound) <==>
              NameGiven(req) && TypeAccepted(req) && DataGiven(req) && !ParentExists(files, req)
    ensures r == Err(ParentNotAFolder) <==>
              NameGiven(req) && TypeAccepted(req) && DataGiven(req) && ParentExists(files, req)
              && !ParentIsAFolder(files, req)
    ensures r.Ok? <==>
              NameGiven(req) && TypeAccepted(req) && DataGiven(req) && ParentExists(files, req)
              && ParentIsAFolder(files, req)
    ensures r.Ok? ==>
              && r.value.id == nextId && r.value.userId == owner
              && Some(r.value.name) == req.name && Some(TypeName(r.value.ftype)) == req.ftype
              && r.value.isPublic == (req.isPublic == Some(true))
              && (r.value.parent == Root <==> IsRootArg(req.parentId))
              && (r.value.parent.InFolder? ==> r.value.parent.id == Key(req.parentId.value))
              && (r.value.localPath.Some? <==> r.value.ftype != Folder)
              && (r.value.localPath.Some? ==> r.value.localPath.value == locator)
  {
    if Missing(req.name) then Err(MissingName)
    else if req.ftype.None? || ParseType(req.ftype.value).None? then Err(MissingType)
    else
      var t := ParseType(req.ftype.value).value;
      if Missing(req.data) && t != Folder then Err(MissingData)
      else if !IsRootArg(req.parentId) && IndexOf(files, Key(req.parentId.value)).None? then
        Err(ParentNotFound)
      else if !IsRootArg(req.parentId) && files[IndexOf(files, Key(req.parentId.value)).value].ftype != Folder then
        Err(ParentNotAFolder)
      else
        assert ParentExists(files, req) by {
          if !IsRootArg(req.parentId) {
            var k := IndexOf(files, Key(req.parentId.value)).value;
            assert files[k].id == Key(req.parentId.value);
          }
        }
        var parent := if IsRootArg(req.parentId) then Root else InFolder(Key(req.parentId.value));
        Ok(FileNode(nextId, owner, req.name.value, t, req.isPublic.GetOr(false), parent,
                    if t == Folder then None else Some(locator)))
  }

  /**
   * The upload response: the new node's id as a 24-digit text that reads back
   * as that id, the owner, name, type and flag as stored, and the parent echoed
   * as the request gave it (0 for the root).
   */
  function UploadView(n: FileNode, req: UploadRequest): (v: FileView)
    ensures IsValidId(v.id) && (n.id < IdSpace() ==> Key(v.id) == n.id)
    ensures v.name == n.name && v.ftype == n.ftype && v.isPublic == n.isPublic
    ensures v.parentId == RootZero <==> IsRootArg(req.parentId)
    ensures !IsRootArg(req.parentId) ==> v.parentId == ParentText(req.parentId.value)
  {
    assert n.id < IdSpace() ==> Key(HexId(n.id)) == n.id by {
      if n.id < IdSpace() {
        KeyOfHexId(n.id);
      }
    }
    FileView(HexId(n.id), HexId(n.userId), n.name, n.ftype, n.isPublic,
             if IsRootArg(req.parentId) then RootZero else ParentText(req.parentId.value))
  }

  /** The thumbnail jobs an inserted node gives rise to: one for an image, none otherwise. */
  function ThumbnailJobs(n: FileNode): (js: seq<Job>)
    ensures |js| == (if n.ftype == Image then 1 else 0)
    ensures forall j :: j in js ==> j == Job(n.userId, n.id)
  {
    if n.ftype == Image then [Job(n.userId, n.id)] else []
  }

  /** Every stored locator has its content written. */
  ghost predicate ContentStored(files: seq<FileNode>, blobs: set<string>) {
    forall i :: 0 <= i < |files| && files[i].localPath.Some? ==> files[i].localPath.value in blobs
  }

  /** The invariant of the whole store. */
  ghost predicate StoreOk(files: seq<FileNode>, nextId: nat, blobs: set<string>) {
    TableOk(files, nextId) && ContentStored(files, blobs)
  }

  /** The blobs after an upload of `n`: its content is written unless it is a folder. */
  function BlobsAfter(blobs: set<string>, n: FileNode): set<string> {
    if n.localPath.Some? then blobs + {n.localPath.value} else blobs
  }

  /** A successful upload keeps the table invariant. */
  lemma UploadKeepsTable(files: seq<FileNode>, nextId: nat, owner: nat, req: UploadRequest, locator: string)
    requires TableOk(files, nextId)
    requires Upload(files, nextId, owner, req, locator).Ok?
    ensures TableOk(files + [Upload(files, nextId, owner, req, locator).value], nextId + 1)
  {
    var n := Upload(files, nextId, owner, req, locator).value;
    var files' := files + [n];
    forall i | 0 <= i < |files'|
      ensures ParentIsFolder(files', files'[i])
    {
      if i < |files| {
        if files[i].parent.InFolder? {
          var j :| 0 <= j < |files| && files[j].id == files[i].parent.id && files[j].ftype == Folder;
          assert files'[j] == files[j];
        }
      } else if n.parent.InFolder? {
        var j := IndexOf(files, Key(req.parentId.value)).value;
        assert files'[j] == files[j];
      }
    }
  }

  /** A successful upload keeps the store invariant. */
  lemma UploadKeepsStore(files: seq<FileNode>, nextId: nat, blobs: set<string>, owner: nat,
                         req: UploadRequest, locator: string)
    requires StoreOk(files, nextId, blobs)
    requires Upload(files, nextId, owner, req, locator).Ok?
    ensures var n := Upload(files, nextId, owner, req, locator).value;
            StoreOk(files + [n], nextId + 1, BlobsAfter(blobs, n))
  {
    UploadKeepsTable(files, nextId, owner, req, locator);
  }

  // ---------------------------------------------------------------------
  // getShow

  /** One node, found by id and owner; any other outcome is "not found". */
  function GetShow(files: seq<FileNode>, owner: nat, id: string): (r: Result<FileView, FileError>)
    ensures r.Err? ==> r.error == NotFound
    ensures r.Ok? <==> exists i :: 0 <= i < |files| && files[i].id == Key(id) && files[i].userId == owner
    ensures r.Ok? ==> r.value.id == id && r.value.userId == HexId(owner)
  {
    match OwnedIndexOf(files, Key(id), owner)
    case None => Err(NotFound)
    case Some(i) =>
      var f := files[i];
      Ok(FileView(id, HexId(owner), f.name, f.ftype, f.isPublic, RenderParent(f.parent)))
  }

  /** In a well-formed table, showing a node gives that node's fields, its parent rendered. */
  lemma ShowFindsNode(files: seq<FileNode>, nextId: nat, owner: nat, id: string, i: nat)
    requires TableOk(files, nextId) && i < |files|
    requires files[i].id == Key(id) && files[i].userId == owner
    ensures GetShow(files, owner, id) ==
              Ok(FileView(id, HexId(owner), files[i].name, files[i].ftype, files[i].isPublic,
                          RenderParent(files[i].parent)))
  {
    var k := OwnedIndexOf(files, Key(id), owner);
    assert k.Some?;
    assert files[k.value].id == files[i].id;
  }

  /** A malformed id, or a node of another owner, is "not found" like a missing id. */
  lemma ShowFailsClosed(files: seq<FileNode>, nextId: nat, owner: nat, id: string)
    requires TableOk(files, nextId)
    requires !IsValidId(id) || forall i :: 0 <= i < |files| && files[i].id == Key(id) ==> files[i].userId != owner
    ensures GetShow(files, owner, id) == Err(NotFound)
  {
  }

  // ---------------------------------------------------------------------
  // getIndex

  /** The parent a listing asks for: the `parentId` query, "0" (the root) when absent. */
  function IndexParent(q: Option<string>): (r: ParentRef)
    ensures r == Root <==> IsRootArg(q)
    ensures r.InFolder? ==> q.Some? && r.id == Key(q.value)
    ensures !IsRootArg(q) && !IsValidId(q.value) ==> r == InFolder(0)
  {
    var p := if Missing(q) then "0" else q.value;
    if p == "0" then Root else InFolder(Key(p))
  }

  /** The nodes of `owner` under `parent`, newest first. */
  function NewestMatching(files: seq<FileNode>, owner: nat, parent: ParentRef): (r: seq<FileNode>)
    ensures |r| <= |files|
    ensures forall x :: x in r <==> x in files && x.userId == owner && x.parent == parent
  {
    if files == [] then []
    else
      var last := files[|files| - 1];
      var older := NewestMatching(files[..|files| - 1], owner, parent);
      assert files == files[..|files| - 1] + [last];
      if last.userId == owner && last.parent == parent then [last] + older else older
  }

  /** Page `page` of a listing: skip `page * PageSize` entries, keep at most `PageSize`. */
  function PageOf(s: seq<FileNode>, page: nat): (r: seq<FileNode>)
    ensures |r| == Min(PageSize, Max(0, |s| - page * PageSize))
    ensures forall j :: 0 <= j < |r| ==> r[j] == s[page * PageSize + j]
  {
    var from := Min(page * PageSize, |s|);
    s[from..Min(from + PageSize, |s|)]
  }

  /** The nodes a listing page returns. */
  function IndexRecords(files: seq<FileNode>, owner: nat, parent: ParentRef, page: nat): seq<FileNode> {
    PageOf(NewestMatching(files, owner, parent), page)
  }

  /**
   * The projection stage of a listing: one view per node, in the same order,
   * each with an id text that reads back as the node's id and a parent that
   * is 0 exactly for the root.
   */
  function Views(rs: seq<FileNode>): (vs: seq<FileView>)
    ensures |vs| == |rs| && forall j :: 0 <= j < |rs| ==> vs[j] == RecordView(rs[j])
    ensures forall j :: 0 <= j < |rs| && rs[j].id < IdSpace() ==> Key(vs[j].id) == rs[j].id
    ensures forall j :: 0 <= j < |rs| ==> (vs[j].parentId == RootZero <==> rs[j].parent == Root)
  {
    seq(|rs|, j requires 0 <= j < |rs| => RecordView(rs[j]))
  }

  /**
   * The listing handler. `None` stands for a page that parses to NaN or to a
   * negative number: the skip stage then receives a value the database
   * rejects, and what the request does then is not part of this model.
   */
  function GetIndex(files: seq<FileNode>, owner: nat, parentQ: Option<string>, pageQ: Option<string>)
    : (r: Option<seq<FileView>>)
    ensures r.Some? <==> ParsePage(pageQ).Num? && ParsePage(pageQ).n >= 0
    ensures r.Some? ==> |r.value| <= PageSize
    ensures r.Some? ==> forall j :: 0 <= j < |r.value| ==>
              r.value[j].userId == HexId(owner) && r.value[j].parentId == RenderParent(IndexParent(parentQ))
    ensures r.Some? ==> r.value == Views(IndexRecords(files, owner, IndexParent(parentQ), ParsePage(pageQ).n))
  {
    match ParsePage(pageQ)
    case NaN => None
    case Num(n) =>
      if n < 0 then None
      else
        var rs := IndexRecords(files, owner, IndexParent(parentQ), n);
        PageMembers(files, owner, IndexParent(parentQ), n);
        Some(Views(rs))
  }

  /** Every node on a listing page belongs to the requester and sits under the asked parent. */
  lemma PageMembers(files: seq<FileNode>, owner: nat, parent: ParentRef, page: nat)
    ensures var rs := IndexRecords(files, owner, parent, page);
            forall j :: 0 <= j < |rs| ==> rs[j].userId == owner && rs[j].parent == parent
  {
    var listing := NewestMatching(files, owner, parent);
    var rs := PageOf(listing, page);
    forall j | 0 <= j < |rs|
      ensures rs[j].userId == owner && rs[j].parent == parent
    {
      assert rs[j] == listing[page * PageSize + j];
      assert listing[page * PageSize + j] in listing;
    }
  }

  /** Ids strictly decrease along `s`: newest first. */
  ghost predicate IdsDecreasing(s: seq<FileNode>) {
    forall i, j :: 0 <= i < j < |s| ==> s[i].id > s[j].id
  }

  /** Every match among the older nodes was inserted before the last node. */
  lemma OlderMatchesBeforeLast(files: seq<FileNode>, owner: nat, parent: ParentRef)
    requires IdsIncreasing(files) && files != []
    ensures forall x :: x in NewestMatching(files[..|files| - 1], owner, parent) ==> x.id < files[|files| - 1].id
  {
    var init := files[..|files| - 1];
    forall x | x in NewestMatching(init, owner, parent)
      ensures x.id < files[|files| - 1].id
    {
      var k :| 0 <= k < |init| && init[k] == x;
      assert files[k] == x;
    }
  }

  /** In a table whose ids increase, a listing is in strictly decreasing id order. */
  lemma {:induction false} NewestMatchingDecreasing(files: seq<FileNode>, owner: nat, parent: ParentRef)
    requires IdsIncreasing(files)
    ensures IdsDecreasing(NewestMatching(files, owner, parent))
  {
    if files != [] {
      var init := files[..|files| - 1];
      var last := files[|files| - 1];
      assert IdsIncreasing(init);
      NewestMatchingDecreasing(init, owner, parent);
      var older := NewestMatching(init, owner, parent);
      if last.userId == owner && last.parent == parent {
        OlderMatchesBeforeLast(files, owner, parent);
        var r := [last] + older;
        forall i, j | 0 <= i < j < |r|
          ensures r[i].id > r[j].id
        {
          assert r[j] == older[j - 1];
          if i > 0 {
            assert r[i] == older[i - 1];
          } else {
            assert older[j - 1] in older;
          }
        }
      }
    }
  }

  lemma PageOfKeepsOrder(s: seq<FileNode>, page: nat)
    requires IdsDecreasing(s)
    ensures IdsDecreasing(PageOf(s, page))
    ensures forall x :: x in PageOf(s, page) ==> x in s
  {
    var r := PageOf(s, page);
    var off := page * PageSize;
    forall i, j | 0 <= i < j < |r|
      ensures r[i].id > r[j].id
    {
      assert r[i] == s[off + i] && r[j] == s[off + j];
    }
    forall x | x in r
      ensures x in s
    {
      var j :| 0 <= j < |r| && r[j] == x;
      assert s[off + j] == x;
    }
  }

  /** Each listing page holds at most `PageSize` nodes of the requester under the asked parent, newest first. */
  lemma IndexPageShape(files: seq<FileNode>, nextId: nat, owner: nat, parent: ParentRef, page: nat)
    requires TableOk(files, nextId)
    ensures var rs := IndexRecords(files, owner, parent, page);
            && |rs| <= PageSize
            && (forall x :: x in rs ==> x in files && x.userId == owner && x.parent == parent)
            && IdsDecreasing(rs)
  {
    NewestMatchingDecreasing(files, owner, parent);
    PageOfKeepsOrder(NewestMatching(files, owner, parent), page);
  }

  /** The pages split the newest-first listing: entry `k` is entry `k % PageSize` of page `k / PageSize`. */
  lemma PagesCoverListing(files: seq<FileNode>, owner: nat, parent: ParentRef, k: nat)
    requires k < |NewestMatching(files, owner, parent)|
    ensures var rs := IndexRecords(files, owner, parent, k / PageSize);
            k % PageSize < |rs| && rs[k % PageSize] == NewestMatching(files, owner, parent)[k]
  {
    assert k == (k / PageSize) * PageSize + k % PageSize;
  }

  /** A page text with no digit lists the first page, as "0" does. */
  lemma PageWithoutDigitIsFirst(files: seq<FileNode>, owner: nat, parentQ: Option<string>, pageQ: Option<string>)
    requires !ContainsDigit(pageQ.GetOr(""))
    ensures GetIndex(files, owner, parentQ, pageQ) == GetIndex(files, owner, parentQ, Some("0"))
  {
    ParsePageOfDigits("0");
  }

  /**
   * The listing handler answers page `n` of the newest-first listing: the
   * views of the entries from position `n * PageSize` on, at most `PageSize`.
   */
  lemma IndexPageEntries(files: seq<FileNode>, owner: nat, parentQ: Option<string>, pageQ: Option<string>,
                         n: nat, vs: seq<FileView>)
    requires ParsePage(pageQ) == Num(n) && GetIndex(files, owner, parentQ, pageQ) == Some(vs)
    ensures var listing := NewestMatching(files, owner, IndexParent(parentQ));
            && |vs| == Min(PageSize, Max(0, |listing| - n * PageSize))
            && forall j :: 0 <= j < |vs| ==> vs[j] == RecordView(listing[n * PageSize + j])
  {
    var listing := NewestMatching(files, owner, IndexParent(parentQ));
    assert vs == Views(PageOf(listing, n)) by {
      assert vs == Views(IndexRecords(files, owner, IndexParent(parentQ), n));
    }
    ViewsOfPage(listing, n);
  }

  /** The views of a page are the views of the listing entries from the page's offset on. */
  lemma ViewsOfPage(listing: seq<FileNode>, page: nat)
    ensures var vs := Views(PageOf(listing, page));
            && |vs| == Min(PageSize, Max(0, |listing| - page * PageSize))
            && forall j :: 0 <= j < |vs| ==> vs[j] == RecordView(listing[page * PageSize + j])
  {
    var rs := PageOf(listing, page);
    forall j | 0 <= j < |rs|
      ensures Views(rs)[j] == RecordView(listing[page * PageSize + j])
    {
      assert rs[j] == listing[page * PageSize + j];
    }
  }

  /**
   * What the listing handler answers, in a well-formed table whose ids fit
   * the id space: views of the requester's nodes under the asked parent, at
   * most `PageSize` of them, whose id texts read back as strictly decreasing
   * ids (newest first).
   */
  lemma IndexNewestFirst(files: seq<FileNode>, nextId: nat, owner: nat,
                         parentQ: Option<string>, pageQ: Option<string>)
    requires TableOk(files, nextId) && nextId <= IdSpace()
    requires GetIndex(files, owner, parentQ, pageQ).Some?
    ensures var vs := GetIndex(files, owner, parentQ, pageQ).value;
            && |vs| <= PageSize
            && forall i, j :: 0 <= i < j < |vs| ==> Key(vs[i].id) > Key(vs[j].id)
  {
    var rs := IndexRecords(files, owner, IndexParent(parentQ), ParsePage(pageQ).n);
    IndexPageShape(files, nextId, owner, IndexParent(parentQ), ParsePage(pageQ).n);
    var vs := GetIndex(files, owner, parentQ, pageQ).value;
    assert vs == Views(rs);
    forall i, j | 0 <= i < j < |vs|
      ensures Key(vs[i].id) > Key(vs[j].id)
    {
      assert rs[i] in rs && rs[j] in rs;
      assert Key(vs[i].id) == rs[i].id && Key(vs[j].id) == rs[j].id;
    }
  }

  // ---------------------------------------------------------------------
  // putPublish / putUnpublish

  /** The response of a visibility change and the table after it. */
  datatype Update = Update(response: Result<FileNode, FileError>, files: seq<FileNode>)

  /**
   * Sets `isPublic` to `value` on the node with the given id owned by the
   * requester and answers with the updated node; with no requester the
   * answer is "unauthorized", with no such node "not found", and the table
   * is then left as it was.
   */
  function SetPublic(files: seq<FileNode>, requester: Option<nat>, id: string, value: bool): (u: Update)
    ensures requester.None? ==> u == Update(Err(Unauthorized), files)
    ensures u.response.Err? ==> u.files == files
    ensures u.response.Err? && requester.Some? ==>
              u.response.error == NotFound &&
              forall j :: 0 <= j < |files| ==> !(files[j].id == Key(id) && files[j].userId == requester.value)
    ensures |u.files| == |files|
    ensures forall j :: 0 <= j < |files| ==> u.files[j].(isPublic := files[j].isPublic) == files[j]
    ensures forall j :: 0 <= j < |files| && u.files[j] != files[j] ==>
              files[j].id == Key(id) && Some(files[j].userId) == requester && u.files[j].isPublic == value
    ensures u.response.Ok? ==>
              && u.response.value.isPublic == value
              && u.response.value.id == Key(id) && Some(u.response.value.userId) == requester
              && u.response.value in u.files
  {
    if requester.None? then Update(Err(Unauthorized), files)
    else match OwnedIndexOf(files, Key(id), requester.value)
      case None => Update(Err(NotFound), files)
      case Some(i) =>
        var updated := files[i].(isPublic := value);
        Update(Ok(updated), files[i := updated])
  }

  /** Changing only a flag keeps every lookup by id and owner where it was. */
  lemma {:induction false} OwnedIndexOfIgnoresFlag(files: seq<FileNode>, i: nat, value: bool, key: nat, owner: nat)
    requires i < |files|
    ensures OwnedIndexOf(files[i := files[i].(isPublic := value)], key, owner) == OwnedIndexOf(files, key, owner)
  {
    var files' := files[i := files[i].(isPublic := value)];
    if i > 0 {
      assert files'[1..] == files[1..][i - 1 := files[i].(isPublic := value)];
      OwnedIndexOfIgnoresFlag(files[1..], i - 1, value, key, owner);
    } else {
      assert files'[1..] == files[1..];
    }
  }

  /** The last visibility change wins: setting `a` then `b` is setting `b`. */
  lemma LastSetWins(files: seq<FileNode>, requester: Option<nat>, id: string, a: bool, b: bool)
    ensures SetPublic(SetPublic(files, requester, id, a).files, requester, id, b) == SetPublic(files, requester, id, b)
  {
    if requester.Some? {
      var k := OwnedIndexOf(files, Key(id), requester.value);
      if k.Some? {
        OwnedIndexOfIgnoresFlag(files, k.value, a, Key(id), requester.value);
        var once := files[k.value := files[k.value].(isPublic := a)];
        assert once[k.value := once[k.value].(isPublic := b)] == files[k.value := files[k.value].(isPublic := b)];
      }
    }
  }

  /** Publishing (or unpublishing) twice leaves the same state and response as once. */
  lemma SetPublicIdempotent(files: seq<FileNode>, requester: Option<nat>, id: string, value: bool)
    ensures var once := SetPublic(files, requester, id, value);
            SetPublic(once.files, requester, id, value) == once
  {
    LastSetWins(files, requester, id, value, value);
  }

  /** Two tables of the same shape that differ at most in `isPublic` flags. */
  ghost predicate FlagsOnlyDiffer(files: seq<FileNode>, files': seq<FileNode>) {
    && |files'| == |files|
    && forall j :: 0 <= j < |files| ==> files'[j].(isPublic := files[j].isPublic) == files[j]
  }

  /** Changing visibility flags alone keeps the store invariant. */
  lemma FlagChangeKeepsStore(files: seq<FileNode>, files': seq<FileNode>, nextId: nat, blobs: set<string>)
    requires StoreOk(files, nextId, blobs) && FlagsOnlyDiffer(files, files')
    ensures StoreOk(files', nextId, blobs)
  {
    forall i | 0 <= i < |files'|
      ensures ParentIsFolder(files', files'[i])
    {
      assert files'[i].parent == files[i].parent;
      if files[i].parent.InFolder? {
        var j :| 0 <= j < |files| && files[j].id == files[i].parent.id && files[j].ftype == Folder;
        assert files'[j].(isPublic := files[j].isPublic) == files[j];
      }
    }
  }

  /** A visibility change keeps the store invariant. */
  lemma SetPublicKeepsStore(files: seq<FileNode>, nextId: nat, blobs: set<string>,
                            requester: Option<nat>, id: string, value: bool)
    requires StoreOk(files, nextId, blobs)
    ensures StoreOk(SetPublic(files, requester, id, value).files, nextId, blobs)
  {
    FlagChangeKeepsStore(files, SetPublic(files, requester, id, value).files, nextId, blobs);
  }

  // ---------------------------------------------------------------------
  // getFile

  /** The text a template literal gives for a possibly-undefined path. */
  function PathText(p: Option<string>): string {
    match p
    case Some(s) => s
    case None => "undefined"
  }

  /** The locator a read uses: the node's path, or `<path>_<size>` for a size variant. */
  function Locator(f: FileNode, size: Option<string>): (loc: string)
    ensures Missing(size) <==> loc == PathText(f.localPath)
    ensures |PathText(f.localPath)| <= |loc| && loc[..|PathText(f.localPath)|] == PathText(f.localPath)
  {
    if Missing(size) then PathText(f.localPath) else PathText(f.localPath) + "_" + size.value
  }

  /**
   * Two reads use the same locator exactly when both ask for the original
   * or both ask for the same size variant: a variant is never the original.
   */
  lemma LocatorsDistinct(f: FileNode, a: Option<string>, b: Option<string>)
    ensures Locator(f, a) == Locator(f, b) <==>
              (Missing(a) && Missing(b)) || (!Missing(a) && !Missing(b) && a.value == b.value)
  {
    var p := PathText(f.localPath);
    if !Missing(a) && !Missing(b) && Locator(f, a) == Locator(f, b) {
      assert Locator(f, a)[|p| + 1..] == a.value;
      assert Locator(f, b)[|p| + 1..] == b.value;
    }
  }

  /** Reading a locator: its content when it was written, "not found" otherwise. */
  function ReadBlob(blobs: set<string>, loc: string): Result<string, FileError> {
    if loc in blobs then Ok(loc) else Err(NotFound)
  }

  /**
   * The access decision for a node's content: the node is found by id
   * alone; a public node is readable by anyone, a private one only by its
   * owner (anyone else is told "not found"); a folder readable under those
   * rules has no content.
   */
  function GetFile(files: seq<FileNode>, blobs: set<string>, requester: Option<nat>, id: string, size: Option<string>)
    : (r: Result<string, FileError>)
    ensures r.Err? ==> r.error in {NotFound, FolderHasNoContent}
    ensures (forall j :: 0 <= j < |files| ==> files[j].id != Key(id)) ==> r == Err(NotFound)
    ensures r.Ok? ==>
              && r.value in blobs
              && exists i :: 0 <= i < |files| && files[i].id == Key(id) && files[i].ftype != Folder
                   && (files[i].isPublic || requester == Some(files[i].userId))
                   && r.value == Locator(files[i], size)
    ensures r == Err(FolderHasNoContent) ==>
              exists i :: 0 <= i < |files| && files[i].id == Key(id) && files[i].ftype == Folder
                && (files[i].isPublic || requester == Some(files[i].userId))
  {
    match IndexOf(files, Key(id))
    case None => Err(NotFound)
    case Some(i) =>
      var f := files[i];
      if f.isPublic then
        if f.ftype == Folder then Err(FolderHasNoContent) else ReadBlob(blobs, Locator(f, size))
      else if requester.None? then Err(NotFound)
      else if f.userId == requester.value then
        if f.ftype == Folder then Err(FolderHasNoContent) else ReadBlob(blobs, Locator(f, size))
      else Err(NotFound)
  }

  /**
   * The whole decision for a node of a well-formed table: a folder the
   * requester may see is "no content", a private node of someone else is
   * "not found", and otherwise the stored path (or its size variant) is read,
   * with no fall-back to the original when the variant is absent.
   */
  lemma GetFileDecision(files: seq<FileNode>, nextId: nat, blobs: set<string>, requester: Option<nat>,
                        id: string, size: Option<string>, i: nat)
    requires TableOk(files, nextId) && i < |files| && files[i].id == Key(id)
    ensures var f, r := files[i], GetFile(files, blobs, requester, id, size);
            && (f.isPublic && f.ftype == Folder ==> r == Err(FolderHasNoContent))
            && (!f.isPublic && requester != Some(f.userId) ==> r == Err(NotFound))
            && (!f.isPublic && requester == Some(f.userId) && f.ftype == Folder ==> r == Err(FolderHasNoContent))
            && (f.ftype != Folder && (f.isPublic || requester == Some(f.userId)) ==>
                  var loc := if Missing(size) then f.localPath.value else f.localPath.value + "_" + size.value;
                  r == (if loc in blobs then Ok(loc) else Err(NotFound)))
  {
    IndexOfUnique(files, nextId, i);
  }

  /** Every failed upload check is answered with 400. */
  lemma UploadErrorStatus(files: seq<FileNode>, nextId: nat, owner: nat, req: UploadRequest, locator: string)
    ensures var r := Upload(files, nextId, owner, req, locator); r.Err? ==> Status(r.error) == 400
  {
  }

  /** Every failed show is answered with 404. */
  lemma ShowErrorStatus(files: seq<FileNode>, owner: nat, id: string)
    ensures var r := GetShow(files, owner, id); r.Err? ==> Status(r.error) == 404
  {
  }

  /** A failed visibility change is 401 when no user is known and 404 otherwise. */
  lemma SetPublicErrorStatus(files: seq<FileNode>, requester: Option<nat>, id: string, value: bool)
    ensures var u := SetPublic(files, requester, id, value);
            u.response.Err? ==> Status(u.response.error) == (if requester.None? then 401 else 404)
  {
  }

  /** A failed content read is 400 exactly for a folder's missing content, 404 otherwise. */
  lemma GetFileErrorStatus(files: seq<FileNode>, blobs: set<string>, requester: Option<nat>,
                           id: string, size: Option<string>)
    ensures var r := GetFile(files, blobs, requester, id, size);
            r.Err? ==> (Status(r.error) == 400 <==> r == Err(FolderHasNoContent)) && Status(r.error) in {400, 404}
  {
  }

  // ---------------------------------------------------------------------
  // The store

  class FileStore {
    /** The files collection, oldest first. */
    var files: seq<FileNode>
    /** The id the next inserted node receives. */
    var nextId: nat
    /** The thumbnail queue, as the log of jobs added to it. */
    var jobs: seq<Job>
    /** The locators whose content has been written. */
    var blobs: set<string>

    ghost predicate Valid()
      reads this
    {
      StoreOk(files, nextId, blobs)
    }

    constructor ()
      ensures Valid()
      ensures files == [] && nextId == 1 && jobs == [] && blobs == {}
    {
      files, nextId, jobs, blobs := [], 1, [], {};
    }

    /**
     * The checks of POST /files, in the handler's order: the node type and parent an
     * accepted request gets, or the first check it fails.
     */
    method CheckUpload(owner: nat, req: UploadRequest, locator: string)
      returns (r: Result<(FileType, ParentRef), FileError>)
      ensures r.Err? ==> Upload(files, nextId, owner, req, locator) == Err(r.error)
      ensures r.Ok? ==>
                && req.name.Some?
                && Upload(files, nextId, owner, req, locator)
                   == Ok(FileNode(nextId, owner, req.name.value, r.value.0, req.isPublic.GetOr(false),
                                  r.value.1, if r.value.0 == Folder then None else Some(locator)))
    {
      if Missing(req.name) {
        return Err(MissingName);
      }
      if req.ftype.None? || ParseType(req.ftype.value).None? {
        return Err(MissingType);
      }
      var t := ParseType(req.ftype.value).value;
      if Missing(req.data) && t != Folder {
        return Err(MissingData);
      }
      if IsRootArg(req.parentId) {
        return Ok((t, Root));
      }
      var valid := CheckId(req.parentId.value);
      NullIdIsZero();
      var key := HexValue(if valid then req.parentId.value else NullId);
      assert key == Key(req.parentId.value);
      var found := IndexOf(files, key);
      if found.None? {
        return Err(ParentNotFound);
      }
      if files[found.value].ftype != Folder {
        return Err(ParentNotAFolder);
      }
      return Ok((t, InFolder(key)));
    }

    /**
     * `postUpload`: the checks in order, then the content write for a
     * non-folder at the fresh `locator`, the insert, and a thumbnail job for
     * an image. On any error nothing changes.
     */
    method PostUpload(owner: nat, req: UploadRequest, locator: string) returns (res: Result<FileView, FileError>)
      requires Valid()
      modifies this
      ensures Valid()
      ensures match Upload(old(files), old(nextId), owner, req, locator)
              case Err(e) =>
                res == Err(e) && files == old(files) && nextId == old(nextId)
                && jobs == old(jobs) && blobs == old(blobs)
              case Ok(n) =>
                && res == Ok(UploadView(n, req))
                && files == old(files) + [n] && nextId == old(nextId) + 1
                && jobs == old(jobs) + ThumbnailJobs(n)
                && blobs == BlobsAfter(old(blobs), n)
    {
      var checked := CheckUpload(owner, req, locator);
      if checked.Err? {
        return Err(checked.error);
      }
      var t := checked.value.0;
      var parent := checked.value.1;
      var newFile := FileNode(nextId, owner, req.name.value, t, req.isPublic.GetOr(false), parent, None);
      if t != Folder {
        blobs := blobs + {locator};
        newFile := newFile.(localPath := Some(locator));
      }
      UploadKeepsStore(files, nextId, old(blobs), owner, req, locator);
      files := files + [newFile];
      var fileId := nextId;
      nextId := nextId + 1;
      if t == Image {
        jobs := jobs + [Job(owner, fileId)];
      }
      res := Ok(UploadView(newFile, req));
    }

    /** Sets `isPublic` on the requester's node with the given id. */
    method SetVisibility(requester: Option<nat>, id: string, value: bool) returns (res: Result<FileNode, FileError>)
      requires Valid()
      modifies this
      ensures Valid()
      ensures var u := SetPublic(old(files), requester, id, value);
              res == u.response && files == u.files
      ensures nextId == old(nextId) && jobs == old(jobs) && blobs == old(blobs)
    {
      SetPublicKeepsStore(files, nextId, blobs, requester, id, value);
      if requester.None? {
        return Err(Unauthorized);
      }
      var valid := CheckId(id);
      NullIdIsZero();
      var key := HexValue(if valid then id else NullId);
      assert key == Key(id);
      var found := OwnedIndexOf(files, key, requester.value);
      if found.None? {
        return Err(NotFound);
      }
      var i := found.value;
      files := files[i := files[i].(isPublic := value)];
      res := Ok(files[i]);
    }

    /** `putPublish`. */
    method PutPublish(requester: Option<nat>, id: string) returns (res: Result<FileNode, FileError>)
      requires Valid()
      modifies this
      ensures Valid()
      ensures var u := SetPublic(old(files), requester, id, true);
              res == u.response && files == u.files
      ensures nextId == old(nextId) && jobs == old(jobs) && blobs == old(blobs)
    {
      res := SetVisibility(requester, id, true);
    }

    /** `putUnpublish`. */
    method PutUnpublish(requester: Option<nat>, id: string) returns (res: Result<FileNode, FileError>)
      requires Valid()
      modifies this
      ensures Valid()
      ensures var u := SetPublic(old(files), requester, id, false);
              res == u.response && files == u.files
      ensures nextId == old(nextId) && jobs == old(jobs) && blobs == old(blobs)
    {
      res := SetVisibility(requester, id, false);
    }
  }
}
