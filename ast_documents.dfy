/**
 * Syntax-tree nodes as the query engine sees them (immutable, identified by
 * reference, linked to their parent), the walk from a node up to its tree's
 * root, and the process-wide cache that keeps one adapted document per root.
 * The cache keeps at most 20 documents in insertion order and drops the
 * eldest after an insertion that takes it past that bound.
 */
module AstDocuments {
  import opened Wrappers

  /** A parsed syntax-tree node. Its depth is ghost bookkeeping that makes the parent chain finite. */
  class AstNode {
    const parent: AstNode?
    const xpathNodeName: string
    const beginLine: int
    const beginColumn: int
    const endLine: int
    const endColumn: int
    ghost const depth: nat

    constructor (parent: AstNode?, xpathNodeName: string,
                 beginLine: int, beginColumn: int, endLine: int, endColumn: int)
      requires parent != null ==> parent.Linked()
      ensures this.parent == parent && this.xpathNodeName == xpathNodeName
      ensures this.beginLine == beginLine && this.beginColumn == beginColumn
      ensures this.endLine == endLine && this.endColumn == endColumn
      ensures Linked()
    {
      this.parent := parent;
      this.xpathNodeName := xpathNodeName;
      this.beginLine := beginLine;
      this.beginColumn := beginColumn;
      this.endLine := endLine;
      this.endColumn := endColumn;
      depth := if parent == null then 0 else parent.depth + 1;
    }

    /** Every step up the parent chain reaches a strictly shallower node. */
    ghost predicate Linked()
      decreases depth
    {
      parent != null ==> parent.depth < depth && parent.Linked()
    }
  }

  /** The ancestor-or-self of `n` that has no parent. */
  ghost function RootOf(n: AstNode): (r: AstNode)
    requires n.Linked()
    ensures r.parent == null && r.Linked()
    decreases n.depth
  {
    if n.parent == null then n else RootOf(n.parent)
  }

  ghost predicate IsAncestorOrSelf(a: AstNode, n: AstNode)
    requires n.Linked()
    decreases n.depth
  {
    a == n || (n.parent != null && IsAncestorOrSelf(a, n.parent))
  }

  /** The root is an ancestor-or-self, and every node below a root has that root. */
  lemma {:induction false} RootIsAncestor(n: AstNode)
    requires n.Linked()
    ensures IsAncestorOrSelf(RootOf(n), n)
    ensures n.parent != null ==> RootOf(n.parent) == RootOf(n)
    ensures RootOf(RootOf(n)) == RootOf(n)
    decreases n.depth
  {
    if n.parent != null {
      RootIsAncestor(n.parent);
    }
  }

  /** Two nodes in the same tree (one an ancestor of the other) share their root. */
  lemma {:induction false} AncestorsShareRoot(a: AstNode, n: AstNode)
    requires n.Linked() && a.Linked() && IsAncestorOrSelf(a, n)
    ensures RootOf(a) == RootOf(n)
    decreases n.depth
  {
    if a != n {
      AncestorsShareRoot(a, n.parent);
    }
  }

  /** `getRootNode`: follow parent links until there is none. */
  method GetRootNode(node: AstNode) returns (root: AstNode)
    requires node.Linked()
    ensures root == RootOf(node)
    ensures root.parent == null && IsAncestorOrSelf(root, node)
  {
    root := node;
    while root.parent != null
      invariant root.Linked() && RootOf(root) == RootOf(node)
      decreases root.depth
    {
      root := root.parent;
    }
    RootIsAncestor(node);
  }

  /** The library's element view of a syntax-tree node; it remembers the node it wraps. */
  datatype ElementNode = ElementNode(underlying: AstNode)

  /** The adapted document of one whole tree, created once per root. */
  class DocumentNode {
    const root: AstNode

    constructor (root: AstNode)
      ensures this.root == root
    {
      this.root := root;
    }

    /** `nodeToElementNode.get(node)`: the element standing for `node` in this document. */
    function ElementFor(node: AstNode): (e: ElementNode)
      ensures e.underlying == node
    {
      ElementNode(node)
    }
  }

  const MAX_CACHE_SIZE: nat := 20

  /** A cache entry: a tree root and its document. */
  type Entry = (AstNode, DocumentNode)

  /** The value stored under `key`, if any (`get`). */
  function Find(entries: seq<Entry>, key: AstNode): (r: Option<DocumentNode>)
    ensures r.Some? <==> exists i :: 0 <= i < |entries| && entries[i].0 == key
    ensures r.Some? ==> exists i :: 0 <= i < |entries| && entries[i] == (key, r.value)
  {
    if entries == [] then None
    else if entries[0].0 == key then Some(entries[0].1)
    else
      var r := Find(entries[1..], key);
      assert forall i :: 0 <= i < |entries| - 1 ==> entries[1..][i] == entries[i + 1];
      r
  }

  /** `put` of an absent key followed by `removeEldestEntry`: append, then drop the eldest when over the bound. */
  function Put(entries: seq<Entry>, e: Entry): (r: seq<Entry>)
    ensures |entries| <= MAX_CACHE_SIZE ==> |r| <= MAX_CACHE_SIZE
    ensures |r| > 0 && r[|r| - 1] == e
  {
    var grown := entries + [e];
    if |grown| > MAX_CACHE_SIZE then grown[1..] else grown
  }

  /** Insertion of several absent keys, one after another. */
  function PutAll(entries: seq<Entry>, added: seq<Entry>): seq<Entry>
    decreases |added|
  {
    if added == [] then entries else PutAll(Put(entries, added[0]), added[1..])
  }

  /** The newest 20 of a run of entries, oldest first. */
  function Newest(all: seq<Entry>): (r: seq<Entry>)
    ensures |r| == if |all| > MAX_CACHE_SIZE then MAX_CACHE_SIZE else |all|
    ensures r == all[|all| - |r|..]
  {
    if |all| > MAX_CACHE_SIZE then all[|all| - MAX_CACHE_SIZE..] else all
  }

  /** After any run of insertions the cache holds the most recently inserted entries, at most 20. */
  lemma {:induction false} PutAllKeepsNewest(entries: seq<Entry>, added: seq<Entry>)
    requires |entries| <= MAX_CACHE_SIZE
    ensures PutAll(entries, added) == Newest(entries + added)
    decreases |added|
  {
    if added == [] {
      assert entries + added == entries;
    } else {
      PutAllKeepsNewest(Put(entries, added[0]), added[1..]);
      NewestAfterPut(entries, added[0], added[1..]);
      assert entries + [added[0]] + added[1..] == entries + added;
    }
  }

  /** Inserting one entry, then the rest, keeps the same newest entries as inserting all of them. */
  lemma NewestAfterPut(entries: seq<Entry>, e: Entry, rest: seq<Entry>)
    requires |entries| <= MAX_CACHE_SIZE
    ensures Newest(Put(entries, e) + rest) == Newest(entries + [e] + rest)
  {
    var grown := entries + [e];
    if |grown| > MAX_CACHE_SIZE {
      assert Put(entries, e) + rest == (grown + rest)[1..];
    }
  }

  ghost predicate DistinctKeys(entries: seq<Entry>)
  {
    forall i, j :: 0 <= i < j < |entries| ==> entries[i].0 != entries[j].0
  }

  /** Each document is stored under the root it was built from. */
  ghost predicate KeyedByRoot(entries: seq<Entry>)
  {
    forall i :: 0 <= i < |entries| ==> entries[i].1.root == entries[i].0
  }

  /** The process-wide document cache (`CACHE`), as an explicit instance. */
  class DocumentCache {
    var entries: seq<Entry>

    ghost predicate Valid()
      reads this
    {
      |entries| <= MAX_CACHE_SIZE && DistinctKeys(entries) && KeyedByRoot(entries)
    }

    constructor ()
      ensures Valid() && entries == []
    {
      entries := [];
    }

    function Get(root: AstNode): Option<DocumentNode>
      reads this
    {
      Find(entries, root)
    }

    /**
     * `getDocumentNodeForRootNode`: the cached document of the node's root, or
     * a new one that is cached (evicting the eldest entry past the bound).
     */
    method GetDocumentNodeForRootNode(node: AstNode) returns (doc: DocumentNode)
      requires Valid() && node.Linked()
      modifies this
      ensures Valid()
      ensures doc.root == RootOf(node)
      ensures old(Get(RootOf(node))).Some? ==> doc == old(Get(RootOf(node))).value && entries == old(entries)
      ensures old(Get(RootOf(node))).None? ==> fresh(doc) && entries == Put(old(entries), (RootOf(node), doc))
    {
      var root := GetRootNode(node);
      var cached := Find(entries, root);
      if cached.Some? {
        doc := cached.value;
      } else {
        doc := new DocumentNode(root);
        entries := entries + [(root, doc)];
        if |entries| > MAX_CACHE_SIZE {
          entries := entries[1..];
        }
      }
    }
  }
}
