// The RAM filesystem: nodes that are either a growable byte vector (a file) or a
// name-ordered map of children (a directory), with the inode operations
// read_at, write_at, metadata, poll and lookup, and RamFS::add_file on the root.

module RamFs {
  import opened Words

  datatype FileType = File | Directory | Device | Pipe | Symlink

  datatype FsError = NotFound | PermissionDenied | NotADirectory | IsADirectory | IOError

  /** The permission bits of `FileMode`. */
  const READ: nat := 4
  const WRITE: nat := 2
  const EXEC: nat := 1

  datatype Metadata = Metadata(size: u64, mode: nat, fileType: FileType)

  /** One child of a directory. */
  datatype Entry = Entry(name: string, node: RamNode)

  /**
   * The contents of a node. A directory's children are kept as the entries of its
   * ordered map, in ascending name order.
   */
  datatype NodeData = FileNode(content: seq<u8>) | DirNode(children: seq<Entry>)

  // ---------------------------------------------------------------------
  // Names and their order

  /** The order of `String` keys: lexicographic, a proper prefix first. */
  predicate Less(a: string, b: string)
    decreases |a|
  {
    if |a| == 0 then |b| > 0
    else |b| > 0 && (a[0] < b[0] || (a[0] == b[0] && Less(a[1..], b[1..])))
  }

  lemma {:induction false} LessIrreflexive(a: string)
    ensures !Less(a, a)
    decreases |a|
  {
    if |a| > 0 {
      LessIrreflexive(a[1..]);
    }
  }

  lemma {:induction false} LessTransitive(a: string, b: string, c: string)
    requires Less(a, b) && Less(b, c)
    ensures Less(a, c)
    decreases |a|
  {
    if |a| > 0 && a[0] == b[0] && b[0] == c[0] {
      LessTransitive(a[1..], b[1..], c[1..]);
    }
  }

  lemma {:induction false} LessTotal(a: string, b: string)
    requires a != b
    ensures Less(a, b) || Less(b, a)
    decreases |a|
  {
    if |a| > 0 && |b| > 0 && a[0] == b[0] {
      assert a == [a[0]] + a[1..];
      assert b == [b[0]] + b[1..];
      LessTotal(a[1..], b[1..]);
    }
  }

  /** Entries in strictly ascending name order, so every name occurs once. */
  predicate Sorted(es: seq<Entry>)
  {
    forall i, j :: 0 <= i < j < |es| ==> Less(es[i].name, es[j].name)
  }

  /** Every name in `es` comes after `k`. */
  predicate AllAbove(es: seq<Entry>, k: string)
  {
    forall i :: 0 <= i < |es| ==> Less(k, es[i].name)
  }

  /** The node `children.get(name)` finds. */
  function Find(es: seq<Entry>, name: string): (r: Option<RamNode>)
    ensures r.None? <==> forall i :: 0 <= i < |es| ==> es[i].name != name
    ensures r.Some? ==> exists i :: 0 <= i < |es| && es[i] == Entry(name, r.value)
  {
    if |es| == 0 then None
    else if es[0].name == name then Some(es[0].node)
    else
      var r := Find(es[1..], name);
      assert forall i :: 1 <= i < |es| ==> es[i] == es[1..][i - 1];
      r
  }

  /** `children.insert(name, node)`: replace the entry for `name`, or add one in its place in the order. */
  function Insert(es: seq<Entry>, name: string, node: RamNode): (r: seq<Entry>)
    ensures Find(r, name) == Some(node)
    ensures forall other :: other != name ==> Find(r, other) == Find(es, other)
  {
    if |es| == 0 then [Entry(name, node)]
    else if es[0].name == name then [Entry(name, node)] + es[1..]
    else if Less(name, es[0].name) then [Entry(name, node)] + es
    else [es[0]] + Insert(es[1..], name, node)
  }

  /** Inserting a name above `k` keeps every name above `k`. */
  lemma {:induction false} InsertAbove(es: seq<Entry>, name: string, node: RamNode, k: string)
    requires AllAbove(es, k) && Less(k, name)
    ensures AllAbove(Insert(es, name, node), k)
  {
    if |es| > 0 && es[0].name != name && !Less(name, es[0].name) {
      InsertAbove(es[1..], name, node, k);
      var r := Insert(es[1..], name, node);
      assert forall i :: 1 <= i < |r| + 1 ==> ([es[0]] + r)[i] == r[i - 1];
    }
  }

  /** A sorted sequence headed by a name below all of it is sorted. */
  lemma ConsSorted(x: Entry, es: seq<Entry>)
    requires Sorted(es) && AllAbove(es, x.name)
    ensures Sorted([x] + es)
  {
    var r := [x] + es;
    forall i, j | 0 <= i < j < |r|
      ensures Less(r[i].name, r[j].name)
    {
      assert r[j] == es[j - 1];
      if i > 0 {
        assert r[i] == es[i - 1];
      }
    }
  }

  /** Insertion keeps the children in ascending name order. */
  lemma {:induction false} InsertSorted(es: seq<Entry>, name: string, node: RamNode)
    requires Sorted(es)
    ensures Sorted(Insert(es, name, node))
  {
    if |es| == 0 {
    } else if es[0].name == name {
      assert Sorted(es[1..]) && AllAbove(es[1..], name);
      ConsSorted(Entry(name, node), es[1..]);
    } else if Less(name, es[0].name) {
      forall j | 0 <= j < |es|
        ensures Less(name, es[j].name)
      {
        if j > 0 {
          LessTransitive(name, es[0].name, es[j].name);
        }
      }
      ConsSorted(Entry(name, node), es);
    } else {
      LessTotal(name, es[0].name);
      var tail := es[1..];
      assert AllAbove(tail, es[0].name);
      InsertAbove(tail, name, node, es[0].name);
      InsertSorted(tail, name, node);
      ConsSorted(es[0], Insert(tail, name, node));
    }
  }

  // ---------------------------------------------------------------------
  // File contents

  function Min(a: int, b: int): int
  {
    if a < b then a else b
  }

  /** The bytes `read_at(offset, buf)` copies into a buffer of `size` bytes. */
  function ReadBytes(content: seq<u8>, offset: u64, size: nat): (r: seq<u8>)
    ensures offset >= |content| ==> r == []
    ensures offset < |content| ==> |r| == Min(size, |content| - offset)
    ensures |r| <= size && (|r| > 0 ==> offset + |r| <= |content|)
    ensures forall k :: 0 <= k < |r| ==> r[k] == content[offset + k]
  {
    if offset >= |content| then [] else content[offset..offset + Min(size, |content| - offset)]
  }

  /** The content after `write_at(offset, buf)`: zero-extended to `offset + |buf|` if shorter, then `buf` over `[offset, offset + |buf|)`. */
  function Written(content: seq<u8>, offset: u64, buf: seq<u8>): (r: seq<u8>)
    ensures |r| == if offset + |buf| > |content| then offset + |buf| else |content|
    ensures forall j :: 0 <= j < |r| ==>
              r[j] == if offset <= j < offset + |buf| then buf[j - offset]
                      else if j < |content| then content[j] else 0
  {
    var ext := if offset + |buf| > |content| then content + Zeros(offset + |buf| - |content|) else content;
    ext[..offset] + buf + ext[offset + |buf|..]
  }

  /** Reading back what was written at the same offset returns exactly the written bytes. */
  lemma WriteThenRead(content: seq<u8>, offset: u64, buf: seq<u8>)
    ensures ReadBytes(Written(content, offset, buf), offset, |buf|) == buf
  {
    var w := Written(content, offset, buf);
    var r := ReadBytes(w, offset, |buf|);
    assert |r| == |buf|;
    assert forall k :: 0 <= k < |buf| ==> r[k] == w[offset + k] == buf[k];
  }

  /** A write leaves every byte outside its range as it was and never shrinks the file. */
  lemma WriteKeepsOthers(content: seq<u8>, offset: u64, buf: seq<u8>, j: nat)
    requires j < |content| && !(offset <= j < offset + |buf|)
    ensures |Written(content, offset, buf)| >= |content|
    ensures Written(content, offset, buf)[j] == content[j]
  {
  }

  // ---------------------------------------------------------------------
  // Nodes

  class RamNode {
    var data: NodeData

    constructor (data: NodeData)
      ensures this.data == data
    {
      this.data := data;
    }

    /** A directory keeps its children in strictly ascending name order, as its `BTreeMap` does. */
    predicate Valid()
      reads this
    {
      data.DirNode? ==> Sorted(data.children)
    }

    /** `read_at(offset, buf)`: copy from the file at `offset` into the front of `buf`; a directory reads nothing. */
    method ReadAt(offset: u64, buf: array<u8>) returns (n: nat)
      modifies buf
      ensures data.FileNode? ==> n == |ReadBytes(data.content, offset, buf.Length)|
                                 && buf[..n] == ReadBytes(data.content, offset, buf.Length)
                                 && buf[n..] == old(buf[n..])
      ensures data.DirNode? ==> n == 0 && buf[..] == old(buf[..])
    {
      match data
      case DirNode(_) =>
        return 0;
      case FileNode(content) =>
        if offset >= |content| {
          return 0;
        }
        var len := Min(buf.Length, |content| - offset);
        forall k | 0 <= k < len {
          buf[k] := content[offset + k];
        }
        n := len;
    }

    /** `write_at(offset, buf)`: write `buf` into the file at `offset`, growing it as needed; a directory takes nothing. */
    method WriteAt(offset: u64, buf: seq<u8>) returns (n: nat)
      requires data.FileNode? ==> offset + |buf| < U64_LIMIT
      modifies this
      ensures old(data).FileNode? ==> n == |buf| && data == FileNode(Written(old(data).content, offset, buf))
      ensures old(data).DirNode? ==> n == 0 && data == old(data)
    {
      match data
      case DirNode(_) =>
        return 0;
      case FileNode(content) =>
        var end := offset + |buf|;
        var c := content;
        if end > |c| {
          c := c + Zeros(end - |c|);
        }
        c := c[..offset] + buf + c[end..];
        data := FileNode(c);
        n := |buf|;
    }

    /** `metadata()`: a file reports its length and read-write mode; a directory size 0 and read-write-execute. */
    function GetMetadata(): (m: Metadata)
      reads this
      requires data.FileNode? ==> |data.content| < U64_LIMIT
      ensures m.fileType == File <==> data.FileNode?
      ensures m.fileType == Directory <==> data.DirNode?
      ensures data.FileNode? ==> m.size == |data.content| && m.mode == READ + WRITE
      ensures data.DirNode? ==> m.size == 0 && m.mode == READ + WRITE + EXEC
    {
      match data
      case FileNode(content) => Metadata(|content|, READ + WRITE, File)
      case DirNode(_) => Metadata(0, READ + WRITE + EXEC, Directory)
    }

    /**
     * `poll()`: each child's name, in the map's order, paired with 0; a file is not a
     * directory. Of a valid directory the names come out strictly ascending, each once.
     */
    method Poll() returns (r: Result<seq<(string, u64)>, FsError>)
      ensures data.FileNode? ==> r == Err(NotADirectory)
      ensures data.DirNode? ==> r.Ok? && |r.value| == |data.children|
                                && forall i :: 0 <= i < |r.value| ==> r.value[i] == (data.children[i].name, 0)
      ensures data.DirNode? && Valid() ==>
                forall i, j :: 0 <= i < j < |r.value| ==> Less(r.value[i].0, r.value[j].0) && r.value[i].0 != r.value[j].0
    {
      match data
      case FileNode(_) =>
        return Err(NotADirectory);
      case DirNode(children) =>
        var entries: seq<(string, u64)> := [];
        for i := 0 to |children|
          invariant |entries| == i
          invariant forall k :: 0 <= k < i ==> entries[k] == (children[k].name, 0)
        {
          entries := entries + [(children[i].name, 0)];
        }
        if Sorted(children) {
          PollAscending(children, entries);
        }
        return Ok(entries);
    }

    /** `lookup(name)`: the named child, NotFound when there is none, NotADirectory on a file. */
    function Lookup(name: string): (r: Result<RamNode, FsError>)
      reads this
      ensures data.FileNode? ==> r == Err(NotADirectory)
      ensures data.DirNode? && r.Ok? ==> exists i :: 0 <= i < |data.children| && data.children[i] == Entry(name, r.value)
      ensures data.DirNode? ==> (r == Err(NotFound) <==> forall i :: 0 <= i < |data.children| ==> data.children[i].name != name)
    {
      match data
      case FileNode(_) => Err(NotADirectory)
      case DirNode(children) =>
        match Find(children, name)
        case Some(node) => Ok(node)
        case None => Err(NotFound)
    }
  }

  /** In a sorted directory, `poll` lists every name once, in strictly ascending order. */
  lemma PollAscending(es: seq<Entry>, listing: seq<(string, u64)>)
    requires Sorted(es)
    requires |listing| == |es| && forall i :: 0 <= i < |listing| ==> listing[i] == (es[i].name, 0)
    ensures forall i, j :: 0 <= i < j < |listing| ==> Less(listing[i].0, listing[j].0) && listing[i].0 != listing[j].0
  {
    forall i, j | 0 <= i < j < |listing|
      ensures listing[i].0 != listing[j].0
    {
      LessIrreflexive(listing[i].0);
    }
  }

  /** The filesystem: a root directory. */
  class RamFS {
    const root: RamNode

    /** The root is a directory whose children are in name order. */
    predicate Valid()
      reads this, root
    {
      root.data.DirNode? && root.Valid()
    }

    constructor ()
      ensures fresh(root) && root.data == DirNode([])
      ensures Valid()
    {
      root := new RamNode(DirNode([]));
    }

    /** `add_file(name, content)`: put a new file node under `name` in the root, replacing any child of that name. */
    method AddFile(name: string, content: seq<u8>)
      requires Valid()
      modifies root
      ensures Valid()
      ensures old(root.data).DirNode? ==>
                root.data.DirNode?
                && exists node: RamNode :: fresh(node) && node.data == FileNode(content)
                                          && root.data.children == Insert(old(root.data).children, name, node)
      ensures old(root.data).FileNode? ==> root.data == old(root.data)
    {
      if root.data.DirNode? {
        var node := new RamNode(FileNode(content));
        InsertSorted(root.data.children, name, node);
        root.data := DirNode(Insert(root.data.children, name, node));
      }
    }
  }

  /**
   * After `add_file`, looking the name up finds the new file node, every other name
   * finds what it found before, and the root stays in name order.
   */
  lemma AddFileEffect(es: seq<Entry>, name: string, node: RamNode)
    requires Sorted(es)
    ensures Find(Insert(es, name, node), name) == Some(node)
    ensures forall other :: other != name ==> Find(Insert(es, name, node), other) == Find(es, other)
    ensures Sorted(Insert(es, name, node))
  {
    InsertSorted(es, name, node);
  }
}
