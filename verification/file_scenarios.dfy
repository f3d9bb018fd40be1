/**
 * Properties that relate several file handlers: what an upload makes
 * visible to the show, listing and content handlers afterwards.
 */
module FileScenarios {
  import opened Basics
  import opened ObjectIds
  import opened PageQuery
  import opened FileTable
  import opened FilesController

  /**
   * Showing a node just uploaded, by the id the upload answered with, gives
   * back the uploaded name, type and visibility, and a parent that names
   * the same folder (or the root) as the upload's.
   */
  lemma UploadThenShow(files: seq<FileNode>, nextId: nat, owner: nat, req: UploadRequest, locator: string)
    requires TableOk(files, nextId) && nextId < IdSpace()
    requires Upload(files, nextId, owner, req, locator).Ok?
    ensures var n := Upload(files, nextId, owner, req, locator).value;
            var up := UploadView(n, req);
            var shown := GetShow(files + [n], owner, up.id);
            && shown.Ok?
            && shown.value.id == up.id && shown.value.userId == up.userId
            && shown.value.name == up.name && shown.value.ftype == up.ftype
            && shown.value.isPublic == up.isPublic
            && (shown.value.parentId == RootZero <==> up.parentId == RootZero)
            && (up.parentId.ParentText? ==>
                  shown.value.parentId.ParentText? && Key(shown.value.parentId.text) == Key(up.parentId.text))
  {
    var n := Upload(files, nextId, owner, req, locator).value;
    UploadKeepsTable(files, nextId, owner, req, locator);
    KeyOfHexId(n.id);
    ShowFindsNode(files + [n], nextId + 1, owner, HexId(n.id), |files|);
    if n.parent.InFolder? {
      KeyOfHexId(n.parent.id);
    }
  }

  /** A listing of a parent that no node of the table has is empty. */
  lemma {:induction false} NoMatchNoListing(files: seq<FileNode>, owner: nat, parent: ParentRef)
    requires forall i :: 0 <= i < |files| ==> files[i].parent != parent
    ensures NewestMatching(files, owner, parent) == []
  {
    if files != [] {
      NoMatchNoListing(files[..|files| - 1], owner, parent);
    }
  }

  /** In a well-formed table no node sits inside the id the counter hands out next. */
  lemma NothingInsideFreshId(files: seq<FileNode>, nextId: nat)
    requires TableOk(files, nextId)
    ensures forall i :: 0 <= i < |files| ==> files[i].parent != InFolder(nextId)
  {
    forall i | 0 <= i < |files| && files[i].parent.InFolder?
      ensures files[i].parent.id < nextId
    {
      var j :| 0 <= j < |files| && files[j].id == files[i].parent.id && files[j].ftype == Folder;
    }
  }

  /** A node uploaded into the folder with id `f`, once that folder exists, is accepted into it. */
  lemma UploadIntoFolder(files: seq<FileNode>, nextId: nat, owner: nat, req: UploadRequest, locator: string, i: nat)
    requires TableOk(files, nextId) && i < |files| && files[i].ftype == Folder && files[i].id < IdSpace()
    requires NameGiven(req) && TypeAccepted(req) && DataGiven(req)
    requires req.parentId == Some(HexId(files[i].id))
    ensures var b := Upload(files, nextId, owner, req, locator);
            b.Ok? && b.value.parent == InFolder(files[i].id) && b.value.userId == owner
  {
    KeyOfHexId(files[i].id);
    assert !IsRootArg(req.parentId) by {
      assert |HexId(files[i].id)| == 24;
    }
    IndexOfUnique(files, nextId, i);
  }

  /** The first page of a listing that holds a single node is that node. */
  lemma FirstPageOfOne(files: seq<FileNode>, owner: nat, parentQ: Option<string>, b: FileNode)
    requires NewestMatching(files, owner, IndexParent(parentQ)) == [b]
    ensures GetIndex(files, owner, parentQ, None) == Some([RecordView(b)])
  {
    assert ContainsDigit("0") by {
      assert IsDigit("0"[0]);
    }
    ParsePageOfDigits("0");
    assert ParsePage(None) == Num(0);
    var rs := IndexRecords(files, owner, IndexParent(parentQ), 0);
    assert rs == [b];
    assert Views(rs) == [RecordView(b)];
  }

  /** A listing query naming a rendered id selects the node with that id as parent. */
  lemma ParentQueryOfHexId(n: nat)
    requires n < IdSpace()
    ensures IndexParent(Some(HexId(n))) == InFolder(n)
  {
    KeyOfHexId(n);
    assert |HexId(n)| == 24;
  }

  /** A node appended to a table with nothing under `parent` is that parent's whole listing. */
  lemma OnlyMatchIsLast(files: seq<FileNode>, owner: nat, parent: ParentRef, b: FileNode)
    requires forall i :: 0 <= i < |files| ==> files[i].parent != parent
    requires b.userId == owner && b.parent == parent
    ensures NewestMatching(files + [b], owner, parent) == [b]
  {
    NoMatchNoListing(files, owner, parent);
    assert (files + [b])[..|files|] == files;
  }

  /** Right after an upload, no node of the table (the new one included) lies inside the new node. */
  lemma NothingInsideNewNode(files: seq<FileNode>, nextId: nat, owner: nat, req: UploadRequest, loc: string)
    requires TableOk(files, nextId)
    requires Upload(files, nextId, owner, req, loc).Ok?
    ensures var files1 := files + [Upload(files, nextId, owner, req, loc).value];
            forall i :: 0 <= i < |files1| ==> files1[i].parent != InFolder(nextId)
  {
    var a := Upload(files, nextId, owner, req, loc).value;
    NothingInsideFreshId(files, nextId);
    if a.parent.InFolder? {
      var k := IndexOf(files, Key(req.parentId.value)).value;
      assert files[k].id == a.parent.id;
    }
    assert a.parent != InFolder(nextId);
    var files1 := files + [a];
    forall i | 0 <= i < |files1|
      ensures files1[i].parent != InFolder(nextId)
    {
      if i < |files| {
        assert files1[i] == files[i];
      }
    }
  }

  /**
   * Create a folder, then a node inside it: listing the folder's children
   * (first page) gives exactly that node.
   */
  lemma FolderThenChild(files: seq<FileNode>, nextId: nat, owner: nat,
                        folderReq: UploadRequest, folderLoc: string,
                        childReq: UploadRequest, childLoc: string)
    requires TableOk(files, nextId) && nextId + 1 < IdSpace()
    requires Upload(files, nextId, owner, folderReq, folderLoc).Ok?
    requires Upload(files, nextId, owner, folderReq, folderLoc).value.ftype == Folder
    requires NameGiven(childReq) && TypeAccepted(childReq) && DataGiven(childReq)
    requires childReq.parentId == Some(HexId(nextId))
    ensures var a := Upload(files, nextId, owner, folderReq, folderLoc).value;
            var b := Upload(files + [a], nextId + 1, owner, childReq, childLoc);
            && b.Ok?
            && GetIndex(files + [a, b.value], owner, Some(HexId(nextId)), None) == Some([RecordView(b.value)])
  {
    var a := Upload(files, nextId, owner, folderReq, folderLoc).value;
    var files1 := files + [a];
    UploadKeepsTable(files, nextId, owner, folderReq, folderLoc);
    UploadIntoFolder(files1, nextId + 1, owner, childReq, childLoc, |files|);
    var b := Upload(files1, nextId + 1, owner, childReq, childLoc).value;
    var p := InFolder(nextId);
    ParentQueryOfHexId(nextId);
    NothingInsideNewNode(files, nextId, owner, folderReq, folderLoc);
    OnlyMatchIsLast(files1, owner, p, b);
    assert files1 + [b] == files + [a, b];
    FirstPageOfOne(files + [a, b], owner, Some(HexId(nextId)), b);
  }

  /**
   * A private non-folder just uploaded: its owner reads the stored content,
   * while an anonymous requester or any other user is told "not found".
   */
  lemma UploadThenRead(files: seq<FileNode>, nextId: nat, blobs: set<string>, owner: nat,
                       req: UploadRequest, locator: string, other: Option<nat>)
    requires StoreOk(files, nextId, blobs) && nextId < IdSpace()
    requires Upload(files, nextId, owner, req, locator).Ok?
    requires Upload(files, nextId, owner, req, locator).value.ftype != Folder
    requires other != Some(owner)
    ensures var n := Upload(files, nextId, owner, req, locator).value;
            var files', blobs' := files + [n], BlobsAfter(blobs, n);
            && GetFile(files', blobs', Some(owner), HexId(n.id), None) == Ok(locator)
            && (!n.isPublic ==> GetFile(files', blobs', other, HexId(n.id), None) == Err(NotFound))
  {
    var n := Upload(files, nextId, owner, req, locator).value;
    UploadKeepsTable(files, nextId, owner, req, locator);
    KeyOfHexId(n.id);
    GetFileDecision(files + [n], nextId + 1, BlobsAfter(blobs, n), Some(owner), HexId(n.id), None, |files|);
    GetFileDecision(files + [n], nextId + 1, BlobsAfter(blobs, n), other, HexId(n.id), None, |files|);
  }
}
