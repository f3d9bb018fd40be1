/**
 * The files collection as an in-memory table. Each document is a `FileNode`;
 * the table keeps them in insertion order, and ids are handed out by an
 * increasing counter, so that "sorted by id, descending" is "newest first".
 */
module FileTable {
  import opened Basics
  import opened ObjectIds

  /** The three accepted values of the `type` field. */
  datatype FileType = Folder | File | Image

  /** Where a node sits: at the root (stored as the string "0") or inside a folder. */
  datatype ParentRef = Root | InFolder(id: nat)

  /** One document of the files collection. */
  datatype FileNode = FileNode(
    id: nat,
    userId: nat,
    name: string,
    ftype: FileType,
    isPublic: bool,
    parent: ParentRef,
    localPath: Option<string>)

  /** The `type` string a request must carry for each kind. */
  function TypeName(t: FileType): string {
    match t
    case Folder => "folder"
    case File => "file"
    case Image => "image"
  }

  /** Reads a `type` string; anything but the three accepted names is absent. */
  function ParseType(s: string): (t: Option<FileType>)
    ensures t.Some? <==> s in {"folder", "file", "image"}
    ensures t.Some? ==> TypeName(t.value) == s
  {
    if s == "folder" then Some(Folder)
    else if s == "file" then Some(File)
    else if s == "image" then Some(Image)
    else None
  }

  /** How a response renders a parent: 0 for the root, the parent id's text otherwise. */
  datatype ParentView = RootZero | ParentText(text: string)

  /** The JSON object the handlers return for a node. */
  datatype FileView = FileView(
    id: string,
    userId: string,
    name: string,
    ftype: FileType,
    isPublic: bool,
    parentId: ParentView)

  /**
   * A stored parent as a response renders it: the number 0 for the root, and
   * for a folder its id as text, which a lookup reads back as that folder.
   */
  function RenderParent(p: ParentRef): (v: ParentView)
    ensures v == RootZero <==> p == Root
    ensures p.InFolder? ==> IsValidId(v.text)
    ensures p.InFolder? && p.id < IdSpace() ==> Key(v.text) == p.id
  {
    match p
    case Root => RootZero
    case InFolder(f) =>
      assert f < IdSpace() ==> Key(HexId(f)) == f by {
        if f < IdSpace() {
          KeyOfHexId(f);
        }
      }
      ParentText(HexId(f))
  }

  /**
   * The view of a stored node: its id and its owner's id as 24-digit texts
   * that a lookup reads back as the same ids, its name, type and flag as
   * stored, and its parent rendered.
   */
  function RecordView(r: FileNode): (v: FileView)
    ensures IsValidId(v.id) && IsValidId(v.userId)
    ensures r.id < IdSpace() ==> Key(v.id) == r.id
    ensures r.userId < IdSpace() ==> Key(v.userId) == r.userId
    ensures v.name == r.name && v.ftype == r.ftype && v.isPublic == r.isPublic
    ensures v.parentId == RenderParent(r.parent)
  {
    assert r.id < IdSpace() ==> Key(HexId(r.id)) == r.id by {
      if r.id < IdSpace() {
        KeyOfHexId(r.id);
      }
    }
    assert r.userId < IdSpace() ==> Key(HexId(r.userId)) == r.userId by {
      if r.userId < IdSpace() {
        KeyOfHexId(r.userId);
      }
    }
    FileView(HexId(r.id), HexId(r.userId), r.name, r.ftype, r.isPublic, RenderParent(r.parent))
  }

  /** The position of the first node with id `key` (a lookup on `_id` alone). */
  function IndexOf(files: seq<FileNode>, key: nat): (r: Option<nat>)
    ensures r.Some? ==> r.value < |files| && files[r.value].id == key
    ensures r.Some? ==> forall j :: 0 <= j < r.value ==> files[j].id != key
    ensures r.None? <==> forall j :: 0 <= j < |files| ==> files[j].id != key
  {
    if files == [] then None
    else if files[0].id == key then Some(0)
    else match IndexOf(files[1..], key)
      case None => None
      case Some(i) => Some(i + 1)
  }

  /** The position of the first node with id `key` owned by `owner` (a lookup on `_id` and `userId`). */
  function OwnedIndexOf(files: seq<FileNode>, key: nat, owner: nat): (r: Option<nat>)
    ensures r.Some? ==> r.value < |files| && files[r.value].id == key && files[r.value].userId == owner
    ensures r.None? <==> forall j :: 0 <= j < |files| ==> !(files[j].id == key && files[j].userId == owner)
  {
    if files == [] then None
    else if files[0].id == key && files[0].userId == owner then Some(0)
    else match OwnedIndexOf(files[1..], key, owner)
      case None => None
      case Some(i) => Some(i + 1)
  }

  /** Ids strictly increase along the table, from oldest to newest. */
  ghost predicate IdsIncreasing(files: seq<FileNode>) {
    forall i, j :: 0 <= i < j < |files| ==> files[i].id < files[j].id
  }

  /** A node's parent is the root or a folder present in the table. */
  ghost predicate ParentIsFolder(files: seq<FileNode>, r: FileNode) {
    r.parent.InFolder? ==>
      exists j :: 0 <= j < |files| && files[j].id == r.parent.id && files[j].ftype == Folder
  }

  /**
   * The invariant the handlers keep: ids are in 1 .. nextId - 1 and increase
   * with insertion (so no node has the all-zero id), exactly the non-folders
   * carry a storage locator, and every parent is an existing folder.
   */
  ghost predicate TableOk(files: seq<FileNode>, nextId: nat) {
    && nextId >= 1
    && IdsIncreasing(files)
    && (forall i :: 0 <= i < |files| ==> 1 <= files[i].id < nextId)
    && (forall i :: 0 <= i < |files| ==> (files[i].localPath.Some? <==> files[i].ftype != Folder))
    && (forall i :: 0 <= i < |files| ==> ParentIsFolder(files, files[i]))
  }

  /** In a well-formed table a lookup by id finds the one node with that id. */
  lemma IndexOfUnique(files: seq<FileNode>, nextId: nat, i: nat)
    requires TableOk(files, nextId) && i < |files|
    ensures IndexOf(files, files[i].id) == Some(i)
  {
  }

  /** A malformed request id finds nothing in a well-formed table. */
  lemma MalformedIdFindsNothing(files: seq<FileNode>, nextId: nat, id: string, owner: nat)
    requires TableOk(files, nextId) && !IsValidId(id)
    ensures IndexOf(files, Key(id)).None?
    ensures OwnedIndexOf(files, Key(id), owner).None?
  {
  }
}
