/**
 * The knowledge-tree algebra of the notes page (src/pages/Notes.tsx): a
 * forest of folders and files, searched, renamed, pruned and grown by pure
 * recursive functions that return new forests.
 */
module NotesTree {
  import opened Wrappers
  import opened Text

  datatype Kind = Folder | File

  /** `children?: TreeNode[]`: absent, or present (possibly empty, which is still truthy). */
  datatype Children = Absent | Present(list: seq<Node>)

  /** `TreeNode`. */
  datatype Node = Node(id: string, name: string, kind: Kind, children: Children)

  /** What a node says about itself, without its subtree. */
  datatype Entry = Entry(id: string, name: string, kind: Kind)

  /** `node.children || []`. */
  function Kids(n: Node): seq<Node> {
    match n.children
    case Present(c) => c
    case Absent => []
  }

  function EntryOf(n: Node): Entry {
    Entry(n.id, n.name, n.kind)
  }

  /** Every node of the forest in pre-order: a node, then its subtree, then its later siblings. */
  function Entries(nodes: seq<Node>): seq<Entry>
    decreases nodes
  {
    if nodes == [] then []
    else
      [EntryOf(nodes[0])]
      + (match nodes[0].children case Present(c) => Entries(c) case Absent => [])
      + Entries(nodes[1..])
  }

  /** Some node, at any depth, has this id. */
  predicate HasId(nodes: seq<Node>, id: string)
    decreases nodes
  {
    nodes != []
    && (nodes[0].id == id
        || (match nodes[0].children case Present(c) => HasId(c, id) case Absent => false)
        || HasId(nodes[1..], id))
  }

  /** `n` is one of the nodes of the forest, at any depth. */
  predicate Within(nodes: seq<Node>, n: Node)
    decreases nodes
  {
    nodes != []
    && (nodes[0] == n
        || (match nodes[0].children case Present(c) => Within(c, n) case Absent => false)
        || Within(nodes[1..], n))
  }

  // ---------------------------------------------------------------- findNode

  /** `findNode`: the first node in pre-order with this id. */
  function FindNode(nodes: seq<Node>, id: string): (r: Option<Node>)
    ensures r.Some? ==> r.value.id == id && Within(nodes, r.value)
    ensures r.None? <==> !HasId(nodes, id)
    decreases nodes
  {
    if nodes == [] then None
    else if nodes[0].id == id then Some(nodes[0])
    else
      var inner := match nodes[0].children case Present(c) => FindNode(c, id) case Absent => None;
      if inner.Some? then inner else FindNode(nodes[1..], id)
  }

  // ---------------------------------------------------------------- updateNodeName

  /** `updateNodeName`: the node with the id gets the name (its subtree is not visited); others are searched below. */
  function UpdateNodeName(nodes: seq<Node>, id: string, name: string): (r: seq<Node>)
    ensures |r| == |nodes|
    decreases nodes
  {
    if nodes == [] then []
    else
      var n := nodes[0];
      var renamed :=
        if n.id == id then n.(name := name)
        else match n.children
          case Present(c) => n.(children := Present(UpdateNodeName(c, id, name)))
          case Absent => n;
      [renamed] + UpdateNodeName(nodes[1..], id, name)
  }

  /** The forest with every name blanked: its shape, ids and kinds. */
  function Shape(nodes: seq<Node>): seq<Node>
    decreases nodes
  {
    if nodes == [] then []
    else
      var n := nodes[0];
      var bare := match n.children
        case Present(c) => Node(n.id, "", n.kind, Present(Shape(c)))
        case Absent => Node(n.id, "", n.kind, Absent);
      [bare] + Shape(nodes[1..])
  }

  /** Renaming keeps the shape of the tree, every id and every kind. */
  lemma {:induction false} UpdateKeepsShape(nodes: seq<Node>, id: string, name: string)
    ensures Shape(UpdateNodeName(nodes, id, name)) == Shape(nodes)
    decreases nodes
  {
    if nodes != [] {
      var r := UpdateNodeName(nodes, id, name);
      assert r[1..] == UpdateNodeName(nodes[1..], id, name);
      UpdateKeepsShape(nodes[1..], id, name);
      if nodes[0].id != id && nodes[0].children.Present? {
        UpdateKeepsShape(nodes[0].children.list, id, name);
      }
    }
  }

  /** No two entries share an id. */
  predicate UniqueIds(es: seq<Entry>) {
    forall i, j :: 0 <= i < j < |es| ==> es[i].id != es[j].id
  }

  /** The entries with the given name put on every entry carrying the id. */
  function Relabel(es: seq<Entry>, id: string, name: string): (r: seq<Entry>)
    ensures |r| == |es|
  {
    seq(|es|, k requires 0 <= k < |es| => if es[k].id == id then es[k].(name := name) else es[k])
  }

  lemma RelabelAppend(a: seq<Entry>, b: seq<Entry>, id: string, name: string)
    ensures Relabel(a + b, id, name) == Relabel(a, id, name) + Relabel(b, id, name)
  {
  }

  /** Where no entry has the id, relabelling changes nothing. */
  lemma RelabelAbsent(es: seq<Entry>, id: string, name: string)
    requires forall k :: 0 <= k < |es| ==> es[k].id != id
    ensures Relabel(es, id, name) == es
  {
  }

  /**
   * With unique ids, renaming gives exactly the node with the id the new
   * name: the pre-order entries are the old ones with that one relabelled.
   */
  lemma {:induction false} UpdateRenamesExactlyOne(nodes: seq<Node>, id: string, name: string)
    requires UniqueIds(Entries(nodes))
    ensures Entries(UpdateNodeName(nodes, id, name)) == Relabel(Entries(nodes), id, name)
    decreases nodes
  {
    if nodes != [] {
      var n := nodes[0];
      var r := UpdateNodeName(nodes, id, name);
      var inner := Entries(Kids(n));
      var rest := Entries(nodes[1..]);
      assert Entries(nodes) == [EntryOf(n)] + inner + rest by {
        EntriesCons(nodes);
      }
      assert Relabel(Entries(nodes), id, name) == Relabel([EntryOf(n)], id, name) + Relabel(inner, id, name) + Relabel(rest, id, name) by {
        RelabelAppend([EntryOf(n)] + inner, rest, id, name);
        RelabelAppend([EntryOf(n)], inner, id, name);
      }
      assert Entries(r) == [EntryOf(r[0])] + Entries(Kids(r[0])) + Entries(r[1..]) by {
        EntriesCons(r);
      }
      UniqueParts(nodes);
      assert Entries(r[1..]) == Relabel(rest, id, name) by {
        assert r[1..] == UpdateNodeName(nodes[1..], id, name);
        UpdateRenamesExactlyOne(nodes[1..], id, name);
      }
      assert [EntryOf(r[0])] == Relabel([EntryOf(n)], id, name);
      assert Entries(Kids(r[0])) == Relabel(inner, id, name) by {
        if n.id == id {
          forall k | 0 <= k < |inner|
            ensures inner[k].id != id
          {
            assert Entries(nodes)[0].id == id && Entries(nodes)[1 + k] == inner[k];
          }
          RelabelAbsent(inner, id, name);
        } else if n.children.Present? {
          UpdateRenamesExactlyOne(n.children.list, id, name);
        }
      }
    }
  }

  /** The entries of a non-empty forest: its first node, that node's subtree, then the rest. */
  lemma EntriesCons(nodes: seq<Node>)
    requires nodes != []
    ensures Entries(nodes) == [EntryOf(nodes[0])] + Entries(Kids(nodes[0])) + Entries(nodes[1..])
  {
  }

  lemma UniqueIdsPrefix(a: seq<Entry>, b: seq<Entry>)
    requires UniqueIds(a + b)
    ensures UniqueIds(a)
  {
    forall i, j | 0 <= i < j < |a|
      ensures a[i].id != a[j].id
    {
      assert a[i] == (a + b)[i] && a[j] == (a + b)[j];
    }
  }

  lemma UniqueIdsSuffix(a: seq<Entry>, b: seq<Entry>)
    requires UniqueIds(a + b)
    ensures UniqueIds(b)
  {
    forall i, j | 0 <= i < j < |b|
      ensures b[i].id != b[j].id
    {
      assert b[i] == (a + b)[|a| + i] && b[j] == (a + b)[|a| + j];
    }
  }

  /** Unique ids in a forest are unique in the first node's subtree and among the later siblings. */
  lemma UniqueParts(nodes: seq<Node>)
    requires nodes != [] && UniqueIds(Entries(nodes))
    ensures UniqueIds(Entries(Kids(nodes[0])))
    ensures UniqueIds(Entries(nodes[1..]))
  {
    var head := [EntryOf(nodes[0])] + Entries(Kids(nodes[0]));
    EntriesCons(nodes);
    UniqueIdsSuffix(head, Entries(nodes[1..]));
    UniqueIdsPrefix(head, Entries(nodes[1..]));
    UniqueIdsSuffix([EntryOf(nodes[0])], Entries(Kids(nodes[0])));
  }

  // ---------------------------------------------------------------- removeNode

  /** `removeNode`: every node with the id is dropped, with its subtree, at any depth. */
  function RemoveNode(nodes: seq<Node>, id: string): (r: seq<Node>)
    ensures |r| <= |nodes|
    decreases nodes
  {
    if nodes == [] then []
    else
      var n := nodes[0];
      var kept :=
        if n.id == id then []
        else match n.children
          case Present(c) => [n.(children := Present(RemoveNode(c, id)))]
          case Absent => [n];
      kept + RemoveNode(nodes[1..], id)
  }

  /** An entry with the ids of the nodes above it, outermost first. */
  datatype Placed = Placed(entry: Entry, ancestors: seq<string>)

  /** Every node in pre-order with its ancestors' ids, under the given ancestors. */
  function Placements(nodes: seq<Node>, above: seq<string>): seq<Placed>
    decreases nodes
  {
    if nodes == [] then []
    else
      [Placed(EntryOf(nodes[0]), above)]
      + (match nodes[0].children case Present(c) => Placements(c, above + [nodes[0].id]) case Absent => [])
      + Placements(nodes[1..], above)
  }

  /** A node survives the removal of `id` when neither it nor any ancestor has that id. */
  predicate Survives(p: Placed, id: string) {
    p.entry.id != id && id !in p.ancestors
  }

  /** The entries of the placements that survive the removal of `id`, in order. */
  function Survivors(ps: seq<Placed>, id: string): seq<Entry> {
    if ps == [] then []
    else (if Survives(ps[0], id) then [ps[0].entry] else []) + Survivors(ps[1..], id)
  }

  lemma {:induction false} SurvivorsAppend(a: seq<Placed>, b: seq<Placed>, id: string)
    ensures Survivors(a + b, id) == Survivors(a, id) + Survivors(b, id)
  {
    if a != [] {
      assert (a + b)[0] == a[0] && (a + b)[1..] == a[1..] + b;
      SurvivorsAppend(a[1..], b, id);
    } else {
      assert a + b == b;
    }
  }

  /** Below a removed node nothing survives. */
  lemma {:induction false} NothingSurvivesBelow(nodes: seq<Node>, above: seq<string>, id: string)
    requires id in above
    ensures Survivors(Placements(nodes, above), id) == []
    decreases nodes
  {
    if nodes != [] {
      var head := [Placed(EntryOf(nodes[0]), above)];
      var inner := match nodes[0].children case Present(c) => Placements(c, above + [nodes[0].id]) case Absent => [];
      assert Placements(nodes, above) == head + inner + Placements(nodes[1..], above);
      SurvivorsAppend(head + inner, Placements(nodes[1..], above), id);
      SurvivorsAppend(head, inner, id);
      if nodes[0].children.Present? {
        NothingSurvivesBelow(nodes[0].children.list, above + [nodes[0].id], id);
      }
      NothingSurvivesBelow(nodes[1..], above, id);
    }
  }

  /**
   * The nodes left by `removeNode` are, in their original pre-order, exactly
   * those whose id differs and none of whose ancestors has the id.
   */
  lemma {:induction false} RemoveKeepsSurvivors(nodes: seq<Node>, above: seq<string>, id: string)
    requires id !in above
    ensures Entries(RemoveNode(nodes, id)) == Survivors(Placements(nodes, above), id)
    decreases nodes
  {
    if nodes != [] {
      var n := nodes[0];
      var head := [Placed(EntryOf(n), above)];
      var inner := match n.children case Present(c) => Placements(c, above + [n.id]) case Absent => [];
      var tail := Placements(nodes[1..], above);
      assert Placements(nodes, above) == head + inner + tail;
      SurvivorsAppend(head + inner, tail, id);
      SurvivorsAppend(head, inner, id);
      RemoveKeepsSurvivors(nodes[1..], above, id);
      var r := RemoveNode(nodes, id);
      if n.id == id {
        if n.children.Present? {
          NothingSurvivesBelow(n.children.list, above + [n.id], id);
        }
        assert r == RemoveNode(nodes[1..], id);
      } else {
        assert Survivors(head, id) == [EntryOf(n)];
        if n.children.Present? {
          assert id !in above + [n.id];
          RemoveKeepsSurvivors(n.children.list, above + [n.id], id);
          var n' := n.(children := Present(RemoveNode(n.children.list, id)));
          assert r == [n'] + RemoveNode(nodes[1..], id);
          assert r[1..] == RemoveNode(nodes[1..], id);
          assert Entries(r) == [EntryOf(n)] + Entries(RemoveNode(n.children.list, id)) + Entries(r[1..]) by {
            assert r[0] == n' && EntryOf(n') == EntryOf(n);
          }
        } else {
          assert r == [n] + RemoveNode(nodes[1..], id);
          assert r[1..] == RemoveNode(nodes[1..], id);
          assert Entries(r) == [EntryOf(n)] + Entries(r[1..]) by {
            assert r[0] == n;
          }
        }
      }
    }
  }

  /** After `removeNode` no node with the id is left at any depth, and a forest without it is returned as it was. */
  lemma {:induction false} RemoveNodeGone(nodes: seq<Node>, id: string)
    ensures !HasId(RemoveNode(nodes, id), id)
    ensures !HasId(nodes, id) ==> RemoveNode(nodes, id) == nodes
    decreases nodes
  {
    if nodes != [] {
      var n := nodes[0];
      var r := RemoveNode(nodes, id);
      RemoveNodeGone(nodes[1..], id);
      if n.id != id {
        assert r[1..] == RemoveNode(nodes[1..], id);
        if n.children.Present? {
          RemoveNodeGone(n.children.list, id);
          var n' := n.(children := Present(RemoveNode(n.children.list, id)));
          assert r == [n'] + RemoveNode(nodes[1..], id);
          assert r[0] == n' && Kids(n') == RemoveNode(n.children.list, id);
          assert !HasId(r, id);
        } else {
          assert r == [n] + RemoveNode(nodes[1..], id);
          assert r[0] == n;
          assert !HasId(r, id);
        }
        if !HasId(nodes, id) {
          assert !HasId(Kids(n), id) && !HasId(nodes[1..], id);
          assert r[0] == n;
          assert nodes == [n] + nodes[1..];
        }
      } else {
        assert r == RemoveNode(nodes[1..], id);
      }
    }
  }

  // ---------------------------------------------------------------- addNodeToFolder

  /** The recursive part of `addNodeToFolder`: append to every folder with the id, without entering it. */
  function AddUnder(nodes: seq<Node>, folderId: string, node: Node): (r: seq<Node>)
    ensures |r| == |nodes|
    decreases nodes
  {
    if nodes == [] then []
    else
      var item := nodes[0];
      var updated :=
        if item.id == folderId && item.kind == Folder then item.(children := Present(Kids(item) + [node]))
        else match item.children
          case Present(c) => item.(children := Present(AddUnder(c, folderId, node)))
          case Absent => item;
      [updated] + AddUnder(nodes[1..], folderId, node)
  }

  /** `addNodeToFolder`: no folder id (null or "") appends at the root. */
  function AddNodeToFolder(nodes: seq<Node>, folderId: Option<string>, node: Node): seq<Node> {
    if folderId.None? || folderId.value == "" then nodes + [node]
    else AddUnder(nodes, folderId.value, node)
  }

  /** Some folder, at any depth, has this id. */
  predicate HasFolder(nodes: seq<Node>, id: string)
    decreases nodes
  {
    nodes != []
    && ((nodes[0].id == id && nodes[0].kind == Folder)
        || (match nodes[0].children case Present(c) => HasFolder(c, id) case Absent => false)
        || HasFolder(nodes[1..], id))
  }

  /** Without a folder of that id the forest comes back unchanged, even when a file has the id. */
  lemma {:induction false} AddUnderNoFolder(nodes: seq<Node>, folderId: string, node: Node)
    requires !HasFolder(nodes, folderId)
    ensures AddUnder(nodes, folderId, node) == nodes
    decreases nodes
  {
    if nodes != [] {
      var r := AddUnder(nodes, folderId, node);
      AddUnderNoFolder(nodes[1..], folderId, node);
      if nodes[0].children.Present? {
        AddUnderNoFolder(nodes[0].children.list, folderId, node);
      }
      assert r == [nodes[0]] + nodes[1..];
    }
  }

  /** When the node `findNode` sees first with the id is a folder, that folder is found again with the node appended. */
  lemma {:induction false} AddUnderFound(nodes: seq<Node>, folderId: string, node: Node)
    requires FindNode(nodes, folderId).Some? && FindNode(nodes, folderId).value.kind == Folder
    ensures var f := FindNode(nodes, folderId).value;
      FindNode(AddUnder(nodes, folderId, node), folderId) == Some(f.(children := Present(Kids(f) + [node])))
    decreases nodes
  {
    var n := nodes[0];
    var r := AddUnder(nodes, folderId, node);
    assert r[1..] == AddUnder(nodes[1..], folderId, node);
    if n.id != folderId {
      if n.children.Present? && FindNode(n.children.list, folderId).Some? {
        AddUnderFound(n.children.list, folderId, node);
      } else {
        if n.children.Present? {
          assert !HasFolder(n.children.list, folderId) by {
            FolderHasId(n.children.list, folderId);
          }
          AddUnderNoFolder(n.children.list, folderId, node);
        }
        AddUnderFound(nodes[1..], folderId, node);
      }
    }
  }

  lemma {:induction false} FolderHasId(nodes: seq<Node>, id: string)
    ensures HasFolder(nodes, id) ==> HasId(nodes, id)
    decreases nodes
  {
    if nodes != [] {
      FolderHasId(nodes[1..], id);
      if nodes[0].children.Present? {
        FolderHasId(nodes[0].children.list, id);
      }
    }
  }

  /** The three cases of `addNodeToFolder`. */
  lemma AddNodeToFolderCases(nodes: seq<Node>, folderId: Option<string>, node: Node)
    ensures folderId.None? ==> AddNodeToFolder(nodes, folderId, node) == nodes + [node]
    ensures folderId.Some? && folderId.value != "" && !HasFolder(nodes, folderId.value) ==>
      AddNodeToFolder(nodes, folderId, node) == nodes
    ensures (folderId.Some? && folderId.value != "" && FindNode(nodes, folderId.value).Some?
      && FindNode(nodes, folderId.value).value.kind == Folder) ==>
      var f := FindNode(nodes, folderId.value).value;
      FindNode(AddNodeToFolder(nodes, folderId, node), folderId.value) == Some(f.(children := Present(Kids(f) + [node])))
  {
    if folderId.Some? && folderId.value != "" {
      if !HasFolder(nodes, folderId.value) {
        AddUnderNoFolder(nodes, folderId.value, node);
      }
      if FindNode(nodes, folderId.value).Some? && FindNode(nodes, folderId.value).value.kind == Folder {
        AddUnderFound(nodes, folderId.value, node);
      }
    }
  }

  // ---------------------------------------------------------------- addFilePathToTree

  /** A file with this name sits directly in the forest. */
  predicate HasFileNamed(nodes: seq<Node>, name: string) {
    exists k :: 0 <= k < |nodes| && nodes[k].name == name && nodes[k].kind == File
  }

  /** `findIndex` of the first folder with this name directly in the forest. */
  function FolderIndex(nodes: seq<Node>, name: string): (r: Option<nat>)
    ensures r.Some? ==> r.value < |nodes| && nodes[r.value].name == name && nodes[r.value].kind == Folder
    ensures r.Some? ==> forall k :: 0 <= k < r.value ==> !(nodes[k].name == name && nodes[k].kind == Folder)
    ensures r.None? ==> forall k :: 0 <= k < |nodes| ==> !(nodes[k].name == name && nodes[k].kind == Folder)
  {
    if nodes == [] then None
    else if nodes[0].name == name && nodes[0].kind == Folder then Some(0)
    else
      match FolderIndex(nodes[1..], name)
      case None => None
      case Some(i) => Some(i + 1)
  }

  /**
   * `addFilePathToTree`: walk the folders named by all parts but the last,
   * reusing the first folder of each name and creating missing ones, then add
   * the file unless one of that name is already there. `newId(k)` is the id
   * of a node created with `k` parts left below it (the source draws it from
   * the clock and a random number).
   */
  function AddFilePath(nodes: seq<Node>, parts: seq<string>, newId: nat -> string): seq<Node>
    decreases |parts|
  {
    if parts == [] then nodes
    else
      var head := parts[0];
      var tail := parts[1..];
      if tail == [] then
        if HasFileNamed(nodes, head) then nodes
        else nodes + [Node(newId(0), head, File, Absent)]
      else
        var idx := FolderIndex(nodes, head);
        var existing := if idx.Some? then nodes[idx.value] else Node(newId(|tail|), head, Folder, Present([]));
        var updated := existing.(children := Present(AddFilePath(Kids(existing), tail, newId)));
        if idx.Some? then nodes[idx.value := updated] else nodes + [updated]
  }

  /** The folders named by all parts but the last lead, each the first of its name, to a file named by the last. */
  predicate HasPath(nodes: seq<Node>, parts: seq<string>)
    decreases |parts|
  {
    && parts != []
    && if |parts| == 1 then HasFileNamed(nodes, parts[0])
       else
         var idx := FolderIndex(nodes, parts[0]);
         idx.Some? && HasPath(Kids(nodes[idx.value]), parts[1..])
  }

  /** After adding a path, the path is there. */
  lemma {:induction false} AddFilePathReaches(nodes: seq<Node>, parts: seq<string>, newId: nat -> string)
    requires parts != []
    ensures HasPath(AddFilePath(nodes, parts, newId), parts)
    decreases |parts|
  {
    var r := AddFilePath(nodes, parts, newId);
    var head := parts[0];
    if |parts| == 1 {
      if !HasFileNamed(nodes, head) {
        assert r[|nodes|].name == head && r[|nodes|].kind == File;
      }
    } else {
      var tail := parts[1..];
      var idx := FolderIndex(nodes, head);
      var existing := if idx.Some? then nodes[idx.value] else Node(newId(|tail|), head, Folder, Present([]));
      AddFilePathReaches(Kids(existing), tail, newId);
      var at := if idx.Some? then idx.value else |nodes|;
      FolderIndexAfterUpdate(nodes, head, at, r);
    }
  }

  /** Replacing the first folder of a name, or appending one when there is none, by a folder of that name keeps it the first. */
  lemma FolderIndexAfterUpdate(nodes: seq<Node>, name: string, at: nat, r: seq<Node>)
    requires at == (if FolderIndex(nodes, name).Some? then FolderIndex(nodes, name).value else |nodes|)
    requires at < |r| && r[at].name == name && r[at].kind == Folder
    requires forall k :: 0 <= k < at ==> r[k] == nodes[k]
    ensures FolderIndex(r, name) == Some(at)
  {
    var i := FolderIndex(r, name);
    if i.None? || i.value != at {
      assert false;
    }
  }

  /** Adding the same path twice adds nothing the second time, whatever ids the second call would draw. */
  lemma {:induction false} AddFilePathIdempotent(nodes: seq<Node>, parts: seq<string>, newId: nat -> string, otherId: nat -> string)
    ensures AddFilePath(AddFilePath(nodes, parts, newId), parts, otherId) == AddFilePath(nodes, parts, newId)
    decreases |parts|
  {
    if parts != [] {
      var r := AddFilePath(nodes, parts, newId);
      var head := parts[0];
      var tail := parts[1..];
      if tail == [] {
        if !HasFileNamed(nodes, head) {
          assert r[|nodes|].name == head && r[|nodes|].kind == File;
        }
        assert HasFileNamed(r, head);
      } else {
        var idx := FolderIndex(nodes, head);
        var existing := if idx.Some? then nodes[idx.value] else Node(newId(|tail|), head, Folder, Present([]));
        var inner := AddFilePath(Kids(existing), tail, newId);
        var at := if idx.Some? then idx.value else |nodes|;
        FolderIndexAfterUpdate(nodes, head, at, r);
        AddFilePathIdempotent(Kids(existing), tail, newId, otherId);
        assert r[at] == existing.(children := Present(inner));
        assert r[at := r[at].(children := Present(AddFilePath(Kids(r[at]), tail, otherId)))] == r;
      }
    }
  }

  /**
   * The cases of `addFilePathToTree` at one level: nothing to add, a file
   * already there, an existing folder reused in place (the number of folders
   * of that name never grows), or a new folder appended.
   */
  lemma AddFilePathLevel(nodes: seq<Node>, parts: seq<string>, newId: nat -> string)
    ensures parts == [] ==> AddFilePath(nodes, parts, newId) == nodes
    ensures |parts| == 1 && HasFileNamed(nodes, parts[0]) ==> AddFilePath(nodes, parts, newId) == nodes
    ensures |parts| >= 2 && FolderIndex(nodes, parts[0]).Some? ==>
      var r := AddFilePath(nodes, parts, newId);
      var i := FolderIndex(nodes, parts[0]).value;
      |r| == |nodes| && (forall k :: 0 <= k < |nodes| && k != i ==> r[k] == nodes[k])
      && r[i].id == nodes[i].id && r[i].name == nodes[i].name && r[i].kind == Folder
    ensures |parts| >= 2 && FolderIndex(nodes, parts[0]).None? ==>
      var r := AddFilePath(nodes, parts, newId);
      |r| == |nodes| + 1 && r[..|nodes|] == nodes && r[|nodes|].name == parts[0] && r[|nodes|].kind == Folder
  {
  }
}
