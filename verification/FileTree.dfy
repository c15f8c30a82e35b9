/** Directory trees, what a path names in one, and writing one file below it. */
module FileTree {
  import opened Outcomes

  type Path = seq<string>

  /** `Other` is an entry that is neither a regular file nor a directory. */
  datatype Node<C> = File(content: C) | Dir(entries: map<string, Node<C>>) | Other

  /** The entry a path names; `Blocked` when a component on the way is no directory. */
  datatype Stat<C> = Found(node: Node<C>) | Missing | Blocked

  function Inspect<C>(node: Node<C>, path: Path): Stat<C>
    decreases |path|
  {
    if path == [] then Found(node)
    else if !node.Dir? then Blocked
    else if path[0] !in node.entries then Missing
    else Inspect(node.entries[path[0]], path[1..])
  }

  /** The contents of the regular file at `path`. */
  function FileAt<C>(node: Node<C>, path: Path): Option<C> {
    match Inspect(node, path)
    case Found(File(c)) => Some(c)
    case _ => None
  }

  /** Creates the parent directories of `path` and writes the file; `None` when an entry is in the way. */
  function Write<C>(node: Node<C>, path: Path, content: C): Option<Node<C>>
    decreases |path|
  {
    if path == [] || !node.Dir? then None
    else
      var name := path[0];
      if |path| == 1 then
        if name in node.entries && !node.entries[name].File? then None
        else Some(Dir(node.entries[name := File(content)]))
      else
        var child := if name in node.entries then node.entries[name] else Dir(map[]);
        match Write(child, path[1..], content)
        case None => None
        case Some(written) => Some(Dir(node.entries[name := written]))
  }

  /** Writing a file changes the contents at its own path and at no other. */
  lemma {:induction false} WriteChangesOneFile<C>(node: Node<C>, path: Path, content: C, other: Path)
    requires Write(node, path, content).Some?
    ensures FileAt(Write(node, path, content).value, other) ==
            if other == path then Some(content) else FileAt(node, other)
    decreases |path|
  {
    var name, written := path[0], Write(node, path, content).value;
    if other != [] && other[0] == name {
      assert other == [name] + other[1..] && path == [name] + path[1..];
      var child := if name in node.entries then node.entries[name] else Dir(map[]);
      if |path| > 1 {
        WriteChangesOneFile(child, path[1..], content, other[1..]);
        assert name !in node.entries ==> FileAt(child, other[1..]) == None;
      } else {
        assert path == [name] && other[1..] == [] <==> other == path;
        assert Inspect(written, other) == Inspect(File(content), other[1..]);
        if name in node.entries { assert Inspect(node, other) == Inspect(node.entries[name], other[1..]); }
      }
    }
  }

  lemma WrittenIsNotEmpty<C>(node: Node<C>, path: Path, content: C)
    requires Write(node, path, content).Some?
    ensures Write(node, path, content).value.Dir? && Write(node, path, content).value.entries != map[]
  {
    assert path[0] in Write(node, path, content).value.entries;
  }

  ghost predicate OnlyFilesAndDirectories<C>(node: Node<C>) {
    match node
    case File(_) => true
    case Other => false
    case Dir(entries) => forall name :: name in entries ==> OnlyFilesAndDirectories(entries[name])
  }

  /**
   Copies a directory entry by entry. Every operation may fail; a failed copy
   leaves some partial tree. A finished copy is the source.
   */
  method CopyDirectory<C(0)>(source: Node<C>) returns (ok: bool, copy: map<string, Node<C>>)
    requires source.Dir?
    ensures ok ==> copy == source.entries && OnlyFilesAndDirectories(source)
    decreases source
  {
    copy := map[];
    ok := *;
    if !ok { return; }
    var todo := source.entries.Keys;
    while todo != {}
      invariant todo <= source.entries.Keys && copy.Keys == source.entries.Keys - todo
      invariant forall name :: name in copy ==>
                  copy[name] == source.entries[name] && OnlyFilesAndDirectories(copy[name])
      decreases todo
    {
      var name :| name in todo;
      var entry := source.entries[name];
      ok := *;
      if !ok || entry.Other? { return false, copy; }
      if entry.Dir? {
        var inner: map<string, Node<C>>;
        ok, inner := CopyDirectory(entry);
        copy := copy[name := Dir(inner)];
        if !ok { return; }
      } else {
        copy := copy[name := entry];
      }
      todo := todo - {name};
    }
    ok := true;
  }
}
