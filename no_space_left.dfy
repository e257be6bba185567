/** Day 7, "No Space Left On Device": a shell transcript of `cd` and `ls`
    commands and their output is replayed into a map from path keys to
    directory nodes; directory sizes are then computed recursively, and the
    smallest directory whose removal frees enough space is chosen. */
module NoSpaceLeft {
  import opened Wrappers
  import opened Text
  import opened Decimal
  import opened MapSums

  const TotalSpace: int := 70_000_000
  const NeededSpace: int := 30_000_000

  datatype Command = Ls | Cd(dir: string)
  datatype CommandOut = DirOut(name: string) | FileOut(name: string, size: nat)
  datatype LineType = Cmd(cmd: Command) | Out(out: CommandOut)

  /** An entry of a directory listing. */
  datatype FsElem = File(name: string, size: nat) | Dir(name: string)

  /** A directory node: its entries by name, and its own name. */
  datatype FsTree = FsTree(children: map<string, FsElem>, name: string)

  type FileTree = map<string, FsTree>

  // ---------------------------------------------------------------------
  // Reading the transcript

  /** `parse_line`: the line is split into whitespace-separated words. "$ cd X"
      and "$ ls" are commands, "dir X" lists a directory, and any other line
      lists a file whose size is the first word and whose name is the second.
      A missing word, another command, or a size that is not a number stops
      the program. */
  function ParseLine(line: string): (r: Option<LineType>)
    ensures |Words(line)| < 2 ==> r.None?
    ensures var e := Words(line);
      e != [] && e[0] == "$" ==>
        (r.Some? <==> |e| >= 2 && (e[1] == "ls" || (e[1] == "cd" && |e| >= 3)))
    ensures var e := Words(line);
      r.Some? ==> (r.value.Cmd? <==> e[0] == "$")
    ensures var e := Words(line);
      r.Some? && r.value.Cmd? ==> (r.value.cmd.Ls? <==> e[1] == "ls")
    ensures var e := Words(line);
      r.Some? && r.value.Cmd? && r.value.cmd.Cd? ==> r.value.cmd.dir == e[2]
    ensures var e := Words(line);
      |e| >= 2 && e[0] == "dir" ==> r == Some(Out(DirOut(e[1])))
    ensures var e := Words(line);
      |e| >= 2 && e[0] != "$" && e[0] != "dir" ==>
        (r.Some? <==> ParseUnsigned(e[0]).Some?) &&
        (r.Some? ==> r.value == Out(FileOut(e[1], ParseUnsigned(e[0]).value)))
  {
    var e := Words(line);
    if e == [] then None
    else if e[0] == "$" then
      if |e| < 2 then None
      else if e[1] == "cd" then (if |e| < 3 then None else Some(Cmd(Cd(e[2]))))
      else if e[1] == "ls" then Some(Cmd(Ls))
      else None
    else if |e| < 2 then None
    else if e[0] == "dir" then Some(Out(DirOut(e[1])))
    else
      match ParseUnsigned(e[0])
      case None => None
      case Some(size) => Some(Out(FileOut(e[1], size)))
  }

  /** The transcript text of a line. */
  function LineText(line: LineType): string {
    match line
    case Cmd(Ls) => Join(["$", "ls"], " ")
    case Cmd(Cd(dir)) => Join(["$", "cd", dir], " ")
    case Out(DirOut(name)) => Join(["dir", name], " ")
    case Out(FileOut(name, size)) => Join([ToDecimal(size), name], " ")
  }

  predicate IsWord(s: string) {
    s != [] && NoWhitespace(s)
  }

  /** Names are single words, as in a real transcript. */
  predicate WellFormed(line: LineType) {
    match line
    case Cmd(Ls) => true
    case Cmd(Cd(dir)) => IsWord(dir)
    case Out(out) => IsWord(out.name)
  }

  lemma DecimalIsWord(n: nat)
    ensures IsWord(ToDecimal(n))
    ensures ToDecimal(n) != "$" && ToDecimal(n) != "dir"
  {
    var s := ToDecimal(n);
    assert forall i | 0 <= i < |s| :: !IsWhitespace(s[i]) by {
      forall i | 0 <= i < |s| ensures !IsWhitespace(s[i]) {
        assert IsDigit(s[i]);
      }
    }
    assert IsDigit(s[0]);
  }

  /** Every well-formed line reads back from its text. */
  lemma ParseLineText(line: LineType)
    requires WellFormed(line)
    ensures ParseLine(LineText(line)) == Some(line)
  {
    match line
    case Cmd(Ls) =>
      WordsJoin(["$", "ls"]);
    case Cmd(Cd(dir)) =>
      WordsJoin(["$", "cd", dir]);
    case Out(DirOut(name)) =>
      WordsJoin(["dir", name]);
    case Out(FileOut(name, size)) =>
      DecimalIsWord(size);
      WordsJoin([ToDecimal(size), name]);
      ParseToDecimal(size);
  }

  // ---------------------------------------------------------------------
  // Replaying the transcript

  /** The state of `populate_file_tree` between lines: the tree, the current
      path, and the key of the current directory. */
  datatype Session = Session(tree: FileTree, path: seq<string>, current: string)

  /** A tree holding only an empty root "/", with the root current and an
      empty path. */
  function Initial(): Session {
    Session(map["/" := FsTree(map[], "/")], [], "/")
  }

  /** The path after `cd ..`: one name shorter, or still empty. */
  function Pop(path: seq<string>): seq<string> {
    if path == [] then [] else path[..|path| - 1]
  }

  /** The entry an output line puts into the current directory. */
  function Entry(out: CommandOut): FsElem {
    match out
    case DirOut(name) => Dir(name)
    case FileOut(name, size) => File(name, size)
  }

  /** One line of `populate_file_tree`. */
  function Step(s: Session, line: LineType): (r: Option<Session>)
    requires s.current in s.tree
    ensures r.None? <==> line == Cmd(Cd("..")) && Join(Pop(s.path), "/") !in s.tree
    ensures r.Some? ==> s.tree.Keys <= r.value.tree.Keys && r.value.current in r.value.tree
  {
    match line
    case Cmd(Ls) => Some(s)
    case Cmd(Cd(dir)) =>
      if dir == ".." then
        var key := Join(Pop(s.path), "/");
        if key in s.tree then Some(Session(s.tree, Pop(s.path), key)) else None
      else
        var path := s.path + [dir];
        var key := Join(path, "/");
        Some(Session(s.tree[key := FsTree(map[], dir)], path, key))
    case Out(out) =>
      var node := s.tree[s.current];
      Some(s.(tree := s.tree[s.current := node.(children := node.children[out.name := Entry(out)])]))
  }

  /** The lines replayed one after another, failing at the first that fails. */
  function Replay(s: Session, lines: seq<LineType>): (r: Option<Session>)
    requires s.current in s.tree
    ensures r.Some? ==> s.tree.Keys <= r.value.tree.Keys && r.value.current in r.value.tree
    decreases |lines|
  {
    if lines == [] then Some(s)
    else
      match Step(s, lines[0])
      case None => None
      case Some(next) => Replay(next, lines[1..])
  }

  lemma ReplayStep(s: Session, lines: seq<LineType>)
    requires s.current in s.tree && lines != []
    ensures Replay(s, lines) ==
      if Step(s, lines[0]).None? then None else Replay(Step(s, lines[0]).value, lines[1..])
  {
  }

  /** `populate_file_tree`: the tree is built in place, line by line, while a
      reference to the current directory follows the `cd` commands. */
  method PopulateFileTree(lines: seq<LineType>) returns (r: Option<FileTree>)
    ensures r.Some? <==> Replay(Initial(), lines).Some?
    ensures r.Some? ==> r.value == Replay(Initial(), lines).value.tree
  {
    var fileTree: FileTree := map["/" := FsTree(map[], "/")];
    var currentPath: seq<string> := [];
    var currentKey: string := "/";
    for k := 0 to |lines|
      invariant currentKey in fileTree
      invariant Replay(Initial(), lines) == Replay(Session(fileTree, currentPath, currentKey), lines[k..])
    {
      ghost var before := Session(fileTree, currentPath, currentKey);
      ReplayStep(before, lines[k..]);
      assert lines[k..][0] == lines[k] && lines[k..][1..] == lines[k + 1..];
      match lines[k] {
        case Cmd(Cd(dir)) =>
          if dir == ".." {
            if currentPath != [] {
              currentPath := currentPath[..|currentPath| - 1];
            }
            currentKey := Join(currentPath, "/");
            if currentKey !in fileTree {
              return None;
            }
          } else {
            currentPath := currentPath + [dir];
            fileTree := fileTree[Join(currentPath, "/") := FsTree(map[], dir)];
            currentKey := Join(currentPath, "/");
          }
        case Cmd(Ls) =>
        case Out(DirOut(name)) =>
          var currentDir := fileTree[currentKey];
          fileTree := fileTree[currentKey := currentDir.(children := currentDir.children[name := Dir(name)])];
        case Out(FileOut(name, size)) =>
          var currentDir := fileTree[currentKey];
          fileTree := fileTree[currentKey := currentDir.(children := currentDir.children[name := File(name, size)])];
      }
      assert Step(before, lines[k]) == Some(Session(fileTree, currentPath, currentKey));
    }
    return Some(fileTree);
  }

  /** Keys are never removed, so the root "/" is in every tree the replay
      builds. */
  lemma RootPersists(lines: seq<LineType>)
    requires Replay(Initial(), lines).Some?
    ensures "/" in Replay(Initial(), lines).value.tree
  {
  }

  /** The current directory matches the path: once the path is non-empty, the
      current key is the path joined with "/". */
  predicate Tracks(s: Session) {
    s.current in s.tree && (s.path != [] ==> s.current == Join(s.path, "/"))
  }

  lemma {:induction false} StepTracks(s: Session, line: LineType)
    requires Tracks(s) && Step(s, line).Some?
    ensures Tracks(Step(s, line).value)
  {
  }

  /** `cd X` below a non-empty path makes the current key the old key, "/",
      and X: the same key `calculate_directory_size` builds for the entry
      `dir X` listed in the old directory. */
  lemma CdChildKey(s: Session, dir: string)
    requires Tracks(s) && s.path != [] && dir != ".."
    ensures Step(s, Cmd(Cd(dir))).value.current == ChildKey(s.current, dir)
  {
    JoinAppend(s.path, "/", dir);
  }

  /** `cd X` puts a fresh, empty node under the new key (replacing any node
      already there) and changes no other key. */
  lemma CdFresh(s: Session, dir: string)
    requires s.current in s.tree && dir != ".."
    ensures var t := Step(s, Cmd(Cd(dir))).value;
      && t.path == s.path + [dir]
      && t.tree[t.current] == FsTree(map[], dir)
      && t.tree.Keys == s.tree.Keys + {t.current}
      && forall key | key in s.tree && key != t.current :: t.tree[key] == s.tree[key]
  {
  }

  /** `cd ..` shortens the path and moves to the node under the shorter key,
      leaving the tree as it was. */
  lemma CdParent(s: Session)
    requires s.current in s.tree && Step(s, Cmd(Cd(".."))).Some?
    ensures var t := Step(s, Cmd(Cd(".."))).value;
      t.tree == s.tree && t.path == Pop(s.path) && t.current == Join(Pop(s.path), "/")
  {
  }

  /** A listing line adds its entry to the current directory, replacing an
      entry of the same name, and changes nothing else. */
  lemma OutputEntry(s: Session, out: CommandOut)
    requires s.current in s.tree
    ensures var t := Step(s, Out(out)).value;
      && t.path == s.path && t.current == s.current && t.tree.Keys == s.tree.Keys
      && t.tree[s.current].children == s.tree[s.current].children[out.name := Entry(out)]
      && forall key | key in s.tree && key != s.current :: t.tree[key] == s.tree[key]
  {
  }

  /** A transcript that starts with "$ cd /" replaces the root with a fresh
      one and sets the path to ["/"], whose joined key is again "/". */
  lemma StartAtRoot()
    ensures Step(Initial(), Cmd(Cd("/"))) == Some(Session(map["/" := FsTree(map[], "/")], ["/"], "/"))
  {
    var root := FsTree(map[], "/");
    assert Join(["/"], "/") == "/";
    assert [] + ["/"] == ["/"];
    assert map["/" := root]["/" := root] == map["/" := root];
  }

  // ---------------------------------------------------------------------
  // Directory sizes

  /** The key `calculate_directory_size` builds for a subdirectory. */
  function ChildKey(key: string, name: string): (k: string)
    ensures |k| > |key|
  {
    key + "/" + name
  }

  /** The keys of the tree longer than `key`; a subdirectory's set is smaller,
      which bounds the recursion. */
  ghost function Longer(tree: FileTree, key: string): set<string> {
    set k | k in tree && |k| > |key|
  }

  lemma LongerShrinks(tree: FileTree, key: string, child: string)
    requires child in tree && |child| > |key|
    ensures Longer(tree, child) < Longer(tree, key)
  {
    assert child in Longer(tree, key) && child !in Longer(tree, child);
  }

  /** The size of one directory entry: a file's own size, or the size of the
      subdirectory under its child key, which must exist. */
  ghost function ElemSize(tree: FileTree, key: string, elem: FsElem): Option<nat>
    decreases Longer(tree, key), 0
  {
    match elem
    case File(_, size) => Some(size)
    case Dir(name) =>
      var child := ChildKey(key, name);
      if child in tree then
        LongerShrinks(tree, key, child);
        DirSize(tree, child)
      else None
  }

  /** Every entry of the directory under `key` has a size. */
  ghost predicate Sized(tree: FileTree, key: string)
    requires key in tree
    decreases Longer(tree, key), 1
  {
    forall name | name in tree[key].children :: ElemSize(tree, key, tree[key].children[name]).Some?
  }

  /** The sizes of the entries of the directory under `key`, by name. */
  ghost function EntrySizes(tree: FileTree, key: string): (sizes: map<string, int>)
    requires key in tree && Sized(tree, key)
    ensures sizes.Keys == tree[key].children.Keys
    ensures forall name | name in sizes :: sizes[name] >= 0
    decreases Longer(tree, key), 2
  {
    map name | name in tree[key].children :: ElemSize(tree, key, tree[key].children[name]).value as int
  }

  /** The size of the directory under `key`: the sum of the sizes of its
      entries, or nothing when some subdirectory is missing. */
  ghost function DirSize(tree: FileTree, key: string): Option<nat>
    requires key in tree
    decreases Longer(tree, key), 3
  {
    if Sized(tree, key) then
      var sizes := EntrySizes(tree, key);
      TotalNonNegative(sizes);
      Some(Total(sizes))
    else None
  }

  /** `calculate_directory_size`: the entries are visited in whatever order the
      map yields them, adding file sizes and, recursively, the sizes of
      subdirectories; a missing subdirectory stops the program. */
  method CalculateDirectorySize(directoryName: string, fsMap: FileTree) returns (r: Option<nat>)
    requires directoryName in fsMap
    ensures r == DirSize(fsMap, directoryName)
    decreases Longer(fsMap, directoryName)
  {
    var children := fsMap[directoryName].children;
    var dirSize: nat := 0;
    var rest := children.Keys;
    ghost var done: map<string, int> := map[];
    while rest != {}
      invariant rest <= children.Keys
      invariant done.Keys == children.Keys - rest
      invariant forall name | name in done ::
        ElemSize(fsMap, directoryName, children[name]).Some? && ElemSize(fsMap, directoryName, children[name]).value == done[name]
      invariant dirSize == Total(done)
      decreases rest
    {
      var name :| name in rest;
      var size: nat;
      match children[name] {
        case File(_, fileSize) =>
          size := fileSize;
        case Dir(dirName) =>
          var targetPath := directoryName + "/" + dirName;
          if targetPath !in fsMap {
            assert !Sized(fsMap, directoryName) by {
              assert ElemSize(fsMap, directoryName, children[name]).None?;
            }
            return None;
          }
          LongerShrinks(fsMap, directoryName, targetPath);
          var targetDirSize := CalculateDirectorySize(targetPath, fsMap);
          if targetDirSize.None? {
            assert !Sized(fsMap, directoryName) by {
              assert ElemSize(fsMap, directoryName, children[name]).None?;
            }
            return None;
          }
          size := targetDirSize.value;
      }
      TotalInsert(done, name, size);
      done := done[name := size];
      dirSize := dirSize + size;
      rest := rest - {name};
    }
    assert Sized(fsMap, directoryName);
    assert done == EntrySizes(fsMap, directoryName);
    return Some(dirSize);
  }

  /** `calculate_total_directory_sizes`: the size of every directory of the
      tree, under the same keys. */
  method CalculateTotalDirectorySizes(fileTree: FileTree) returns (r: Option<map<string, nat>>)
    ensures r.Some? <==> forall key | key in fileTree :: DirSize(fileTree, key).Some?
    ensures r.Some? ==> r.value.Keys == fileTree.Keys
    ensures r.Some? ==> forall key | key in r.value :: DirSize(fileTree, key) == Some(r.value[key])
  {
    var dirSizes: map<string, nat> := map[];
    var rest := fileTree.Keys;
    while rest != {}
      invariant rest <= fileTree.Keys
      invariant dirSizes.Keys == fileTree.Keys - rest
      invariant forall key | key in dirSizes :: DirSize(fileTree, key) == Some(dirSizes[key])
      decreases rest
    {
      var dirName :| dirName in rest;
      var dirSize := CalculateDirectorySize(dirName, fileTree);
      if dirSize.None? {
        return None;
      }
      dirSizes := dirSizes[dirName := dirSize.value];
      rest := rest - {dirName};
    }
    return Some(dirSizes);
  }

  /** A directory is at least as large as each of its entries. */
  lemma ChildSizeBound(tree: FileTree, key: string, name: string)
    requires key in tree && DirSize(tree, key).Some? && name in tree[key].children
    ensures ElemSize(tree, key, tree[key].children[name]).Some?
    ensures ElemSize(tree, key, tree[key].children[name]).value <= DirSize(tree, key).value
  {
    var sizes := EntrySizes(tree, key);
    TotalRemove(sizes, name);
    TotalNonNegative(sizes - {name});
  }

  /** A directory with no entries has size 0. */
  lemma EmptyDirectory(tree: FileTree, key: string)
    requires key in tree && tree[key].children == map[]
    ensures DirSize(tree, key) == Some(0)
  {
    assert EntrySizes(tree, key) == map[];
  }

  // ---------------------------------------------------------------------
  // Choosing the directory to delete

  /** How much more space must be freed, given the size of "/". */
  function SpaceNeeded(rootSize: int): int {
    NeededSpace - (TotalSpace - rootSize)
  }

  /** The selection at the end of `main`: among the directories whose size is
      at least the space still needed, one of least size. The two
      subtractions must not go below zero. */
  method SelectDirectory(dirSizes: map<string, nat>) returns (smallest: Option<(string, nat)>)
    requires "/" in dirSizes
    requires dirSizes["/"] <= TotalSpace
    requires TotalSpace - dirSizes["/"] <= NeededSpace
    ensures smallest.None? <==> forall key | key in dirSizes :: dirSizes[key] < SpaceNeeded(dirSizes["/"])
    ensures smallest.Some? ==> smallest.value.0 in dirSizes && dirSizes[smallest.value.0] == smallest.value.1
    ensures smallest.Some? ==> smallest.value.1 >= SpaceNeeded(dirSizes["/"])
    ensures smallest.Some? ==> forall key | key in dirSizes && dirSizes[key] >= SpaceNeeded(dirSizes["/"]) ::
      smallest.value.1 <= dirSizes[key]
  {
    var rootDirSize := dirSizes["/"];
    var unusedSpace := TotalSpace - rootDirSize;
    var spaceNeeded := NeededSpace - unusedSpace;
    smallest := None;
    var rest := dirSizes.Keys;
    while rest != {}
      invariant rest <= dirSizes.Keys
      invariant smallest.None? ==> forall key | key in dirSizes && key !in rest :: dirSizes[key] < spaceNeeded
      invariant smallest.Some? ==> smallest.value.0 in dirSizes && dirSizes[smallest.value.0] == smallest.value.1
      invariant smallest.Some? ==> smallest.value.1 >= spaceNeeded
      invariant smallest.Some? ==> forall key | key in dirSizes && key !in rest && dirSizes[key] >= spaceNeeded ::
        smallest.value.1 <= dirSizes[key]
      decreases rest
    {
      var dir :| dir in rest;
      if dirSizes[dir] >= spaceNeeded && (smallest.None? || dirSizes[dir] < smallest.value.1) {
        smallest := Some((dir, dirSizes[dir]));
      }
      rest := rest - {dir};
    }
  }

  /** The root itself always qualifies, so a directory is always found, and
      deleting it leaves at least the needed space unused. */
  lemma SelectionFreesEnough(dirSizes: map<string, nat>, chosen: nat)
    requires "/" in dirSizes
    requires chosen >= SpaceNeeded(dirSizes["/"])
    ensures dirSizes["/"] >= SpaceNeeded(dirSizes["/"])
    ensures TotalSpace - dirSizes["/"] + chosen >= NeededSpace
  {
  }
}
