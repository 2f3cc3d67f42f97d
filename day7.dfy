/**
 * Day 7, "No Space Left On Device": a terminal log of `cd`/`ls` commands and
 * their listings is replayed into a directory tree; a directory's size is the
 * total size of the files below it. Part one sums the sizes of the
 * directories smaller than 100000; part two picks the smallest directory
 * whose deletion frees enough space for the update.
 *
 * Directories live in an arena: directory `i` is `nodes[i]`, and a directory
 * entry refers to its subdirectory by index. A subdirectory is always created
 * after its parent, so its index is larger; this is what makes the recursive
 * size computation terminate.
 */
module Day7Directories {
  import opened GoStd

  datatype Content = File(name: string, size: int) | Subdirectory(id: nat)

  datatype Directory = Directory(name: string, files: seq<Content>)

  /** Every subdirectory entry points to a later directory of the arena. */
  predicate Ordered(nodes: seq<Directory>)
  {
    forall i, j :: 0 <= i < |nodes| && 0 <= j < |nodes[i].files| && nodes[i].files[j].Subdirectory? ==>
      i < nodes[i].files[j].id < |nodes|
  }

  // ---------------------------------------------------------------------------
  // getSize

  /** `Directory.getSize`: its files' sizes plus its subdirectories' sizes. */
  function Size(nodes: seq<Directory>, id: nat): int
    requires Ordered(nodes) && id < |nodes|
    decreases |nodes| - id, |nodes[id].files| + 1
  {
    FilesSize(nodes, id, |nodes[id].files|)
  }

  /** The size of the first `k` entries of directory `id`. */
  function FilesSize(nodes: seq<Directory>, id: nat, k: nat): int
    requires Ordered(nodes) && id < |nodes| && k <= |nodes[id].files|
    decreases |nodes| - id, k
  {
    if k == 0 then 0
    else
      FilesSize(nodes, id, k - 1) +
      match nodes[id].files[k - 1]
      case File(_, size) => size
      case Subdirectory(child) => Size(nodes, child)
  }

  /** `getSize` as the source computes it: a loop over the entries with a recursive call per subdirectory. */
  method GetSize(nodes: seq<Directory>, id: nat) returns (size: int)
    requires Ordered(nodes) && id < |nodes|
    ensures size == Size(nodes, id)
    decreases |nodes| - id
  {
    size := 0;
    var files := nodes[id].files;
    for i := 0 to |files|
      invariant size == FilesSize(nodes, id, i)
    {
      match files[i]
      case File(_, fileSize) =>
        size := size + fileSize;
      case Subdirectory(child) =>
        var childSize := GetSize(nodes, child);
        size := size + childSize;
    }
  }

  /** No file below directory `id` has a negative size. */
  predicate SizesNonNegative(nodes: seq<Directory>)
  {
    forall i, j :: 0 <= i < |nodes| && 0 <= j < |nodes[i].files| && nodes[i].files[j].File? ==>
      nodes[i].files[j].size >= 0
  }

  lemma {:induction false} FilesSizeAtLeastEach(nodes: seq<Directory>, id: nat, k: nat)
    requires Ordered(nodes) && SizesNonNegative(nodes) && id < |nodes| && k <= |nodes[id].files|
    ensures FilesSize(nodes, id, k) >= 0
    ensures forall j :: 0 <= j < k && nodes[id].files[j].Subdirectory? ==>
              FilesSize(nodes, id, k) >= Size(nodes, nodes[id].files[j].id)
    decreases |nodes| - id, k
  {
    if k > 0 {
      FilesSizeAtLeastEach(nodes, id, k - 1);
      var last := nodes[id].files[k - 1];
      if last.Subdirectory? {
        SizeNonNegative(nodes, last.id);
      }
    }
  }

  /** With non-negative file sizes, sizes are non-negative and a directory is
      at least as large as each of its subdirectories. */
  lemma {:induction false} SizeNonNegative(nodes: seq<Directory>, id: nat)
    requires Ordered(nodes) && SizesNonNegative(nodes) && id < |nodes|
    ensures Size(nodes, id) >= 0
    ensures forall j :: 0 <= j < |nodes[id].files| && nodes[id].files[j].Subdirectory? ==>
              Size(nodes, id) >= Size(nodes, nodes[id].files[j].id)
    decreases |nodes| - id, |nodes[id].files| + 1
  {
    FilesSizeAtLeastEach(nodes, id, |nodes[id].files|);
  }

  /** Arenas that agree on every directory but `d`, where `d` has the same
      size in both, give every directory the same size. */
  lemma {:induction false} SizeAgrees(nodes: seq<Directory>, other: seq<Directory>, d: nat, id: nat)
    requires Ordered(nodes) && Ordered(other) && d < |nodes| <= |other| && id < |nodes|
    requires forall i :: 0 <= i < |nodes| && i != d ==> other[i] == nodes[i]
    requires Size(other, d) == Size(nodes, d)
    ensures Size(other, id) == Size(nodes, id)
    decreases |nodes| - id, |nodes[id].files| + 1
  {
    if id != d {
      FilesSizeAgrees(nodes, other, d, id, |nodes[id].files|);
    }
  }

  lemma {:induction false} FilesSizeAgrees(nodes: seq<Directory>, other: seq<Directory>, d: nat, id: nat, k: nat)
    requires Ordered(nodes) && Ordered(other) && d < |nodes| <= |other| && id < |nodes| && id != d
    requires forall i :: 0 <= i < |nodes| && i != d ==> other[i] == nodes[i]
    requires Size(other, d) == Size(nodes, d)
    requires k <= |nodes[id].files|
    ensures FilesSize(other, id, k) == FilesSize(nodes, id, k)
    decreases |nodes| - id, k
  {
    if k > 0 {
      FilesSizeAgrees(nodes, other, d, id, k - 1);
      var last := nodes[id].files[k - 1];
      if last.Subdirectory? {
        SizeAgrees(nodes, other, d, last.id);
      }
    }
  }

  /** Directories after `d` do not see a change to `d`. */
  lemma {:induction false} SizeIgnoresEarlier(nodes: seq<Directory>, other: seq<Directory>, d: nat, id: nat)
    requires Ordered(nodes) && Ordered(other) && d < id < |nodes| <= |other|
    requires forall i :: 0 <= i < |nodes| && i != d ==> other[i] == nodes[i]
    ensures Size(other, id) == Size(nodes, id)
    decreases |nodes| - id, |nodes[id].files| + 1
  {
    FilesSizeIgnoresEarlier(nodes, other, d, id, |nodes[id].files|);
  }

  lemma {:induction false} FilesSizeIgnoresEarlier(nodes: seq<Directory>, other: seq<Directory>, d: nat, id: nat, k: nat)
    requires Ordered(nodes) && Ordered(other) && d < id < |nodes| <= |other|
    requires forall i :: 0 <= i < |nodes| && i != d ==> other[i] == nodes[i]
    requires k <= |nodes[id].files|
    ensures FilesSize(other, id, k) == FilesSize(nodes, id, k)
    decreases |nodes| - id, k
  {
    if k > 0 {
      FilesSizeIgnoresEarlier(nodes, other, d, id, k - 1);
      var last := nodes[id].files[k - 1];
      if last.Subdirectory? {
        SizeIgnoresEarlier(nodes, other, d, last.id);
      }
    }
  }

  /** Appending an entry adds its size to the directory's size. */
  lemma AppendEntrySize(nodes: seq<Directory>, other: seq<Directory>, d: nat, entry: Content)
    requires Ordered(nodes) && Ordered(other) && d < |nodes| <= |other|
    requires forall i :: 0 <= i < |nodes| && i != d ==> other[i] == nodes[i]
    requires other[d] == Directory(nodes[d].name, nodes[d].files + [entry])
    requires entry.Subdirectory? ==> entry.id < |other|
    ensures Size(other, d) == Size(nodes, d) + if entry.File? then entry.size else Size(other, entry.id)
  {
    var k := |nodes[d].files|;
    assert FilesSize(other, d, k) == FilesSize(nodes, d, k) by {
      AppendEntryPrefix(nodes, other, d, k);
    }
  }

  lemma {:induction false} AppendEntryPrefix(nodes: seq<Directory>, other: seq<Directory>, d: nat, k: nat)
    requires Ordered(nodes) && Ordered(other) && d < |nodes| <= |other|
    requires forall i :: 0 <= i < |nodes| && i != d ==> other[i] == nodes[i]
    requires k <= |nodes[d].files| < |other[d].files| && other[d].files[..k] == nodes[d].files[..k]
    ensures FilesSize(other, d, k) == FilesSize(nodes, d, k)
  {
    if k > 0 {
      assert other[d].files[..k - 1] == nodes[d].files[..k - 1];
      AppendEntryPrefix(nodes, other, d, k - 1);
      assert other[d].files[k - 1] == other[d].files[..k][k - 1];
      var last := nodes[d].files[k - 1];
      if last.Subdirectory? {
        SizeIgnoresEarlier(nodes, other, d, last.id);
      }
    }
  }

  // ---------------------------------------------------------------------------
  // Replaying the terminal log

  /** `currentPaths`, `rootDirectory`, `lookup` (joined path to directory) and the directories. */
  datatype Session = Session(currentPaths: seq<string>, root: Option<nat>, lookup: map<string, nat>,
                             nodes: seq<Directory>)

  const Initial := Session([], None, map[], [])

  /** The joined path under which a directory is registered. */
  function Key(paths: seq<string>): string
  {
    Join(paths, "->")
  }

  predicate WellFormed(s: Session)
  {
    && Ordered(s.nodes)
    && (forall k :: k in s.lookup ==> s.lookup[k] < |s.nodes|)
    && (s.root.Some? <==> |s.nodes| > 0)
    && (s.root.Some? ==> s.root.value == 0)
  }

  /** `parseFile`: "<size> <name>"; a size `Atoi` rejects is an error, and a
      line without a space leaves no name to read. */
  function ParseFile(line: string): (r: Option<Content>)
    ensures r.Some? ==> r.value.File?
    ensures r.Some? <==> AtoiAccepts(Split(line, ' ')[0]) && |Split(line, ' ')| >= 2
  {
    var values := Split(line, ' ');
    match Atoi(values[0])
    case None => None
    case Some(size) => if |values| < 2 then None else Some(File(values[1], size))
  }

  /** A file listing written as "<size> <name>" is read back. */
  lemma ParseFileWritten(size: int, name: string)
    requires ' ' !in name
    ensures ParseFile(Itoa(size) + " " + name) == Some(File(name, size))
  {
    var digits := Itoa(size);
    assert ' ' !in digits by {
      if size < 0 {
        assert digits == "-" + NatDigits(-size);
      }
    }
    SplitJoin([digits, name], ' ');
    assert Join([digits, name], [' ']) == digits + [' '] + Join([name], [' ']);
    assert digits + " " + name == digits + [' '] + name;
    AtoiItoa(size);
  }

  /** `cd <path>`: `..` pops the path stack (popping an empty one panics);
      anything else registers a fresh, empty directory under the extended
      path. The first one becomes the root; every later one is added to the
      directory registered under the previous path, whose absence panics. A
      directory registered under the same key as its parent would contain
      itself, and `getSize` would never return: that is an error too. */
  function ChangeDirectory(s: Session, path: string): Option<Session>
    requires WellFormed(s)
  {
    if path == ".." then
      if |s.currentPaths| == 0 then None
      else Some(s.(currentPaths := s.currentPaths[..|s.currentPaths| - 1]))
    else
      var id := |s.nodes|;
      var previousKey := Key(s.currentPaths);
      var paths := s.currentPaths + [path];
      var lookup := s.lookup[Key(paths) := id];
      var nodes := s.nodes + [Directory(path, [])];
      if s.root.None? then Some(Session(paths, Some(id), lookup, nodes))
      else if previousKey !in lookup || previousKey == Key(paths) then None
      else
        var parent := lookup[previousKey];
        var updated := nodes[parent := Directory(nodes[parent].name, nodes[parent].files + [Subdirectory(id)])];
        Some(Session(paths, s.root, lookup, updated))
  }

  /** A file line appends the file to the directory of the current path, which must be registered. */
  function AddFile(s: Session, line: string): Option<Session>
    requires WellFormed(s)
  {
    match ParseFile(line)
    case None => None
    case Some(file) =>
      var key := Key(s.currentPaths);
      if key !in s.lookup then None
      else
        var d := s.lookup[key];
        Some(s.(nodes := s.nodes[d := Directory(s.nodes[d].name, s.nodes[d].files + [file])]))
  }

  /** One line of the log: a "$" command (`cd`, `ls`, anything else fatal), a
      "dir" listing (ignored), or a file listing. */
  function ReadLine(s: Session, line: string): Option<Session>
    requires WellFormed(s)
  {
    if HasPrefix(line, "$") then
      if |line| < 2 then None
      else
        var command := line[2..];
        if HasPrefix(command, "cd") then
          var values := Split(command, ' ');
          if |values| < 2 then None else ChangeDirectory(s, values[1])
        else if HasPrefix(command, "ls") then Some(s)
        else None
    else if HasPrefix(line, "dir") then Some(s)
    else AddFile(s, line)
  }

  lemma ChangeDirectoryWellFormed(s: Session, path: string)
    requires WellFormed(s) && ChangeDirectory(s, path).Some?
    ensures WellFormed(ChangeDirectory(s, path).value)
    ensures s.root.Some? ==> ChangeDirectory(s, path).value.root == s.root
  {
    if path != ".." {
      var r := ChangeDirectory(s, path).value;
      var id := |s.nodes|;
      forall i, j | 0 <= i < |r.nodes| && 0 <= j < |r.nodes[i].files| && r.nodes[i].files[j].Subdirectory?
        ensures i < r.nodes[i].files[j].id < |r.nodes|
      {
        if i < id && j < |s.nodes[i].files| {
          assert r.nodes[i].files[j] == s.nodes[i].files[j];
        }
      }
    }
  }

  lemma AddFileWellFormed(s: Session, line: string)
    requires WellFormed(s) && AddFile(s, line).Some?
    ensures WellFormed(AddFile(s, line).value) && AddFile(s, line).value.root == s.root
  {
    var r := AddFile(s, line).value;
    forall i, j | 0 <= i < |r.nodes| && 0 <= j < |r.nodes[i].files| && r.nodes[i].files[j].Subdirectory?
      ensures i < r.nodes[i].files[j].id < |r.nodes|
    {
      assert j < |s.nodes[i].files| && r.nodes[i].files[j] == s.nodes[i].files[j];
    }
  }

  /** Every line keeps the arena well formed, and once the root is set it is never replaced. */
  lemma ReadLineWellFormed(s: Session, line: string)
    requires WellFormed(s) && ReadLine(s, line).Some?
    ensures WellFormed(ReadLine(s, line).value)
    ensures s.root.Some? ==> ReadLine(s, line).value.root == s.root
  {
    if HasPrefix(line, "$") {
      var command := line[2..];
      if HasPrefix(command, "cd") {
        ChangeDirectoryWellFormed(s, Split(command, ' ')[1]);
      }
    } else if !HasPrefix(line, "dir") {
      AddFileWellFormed(s, line);
    }
  }

  /** `ls` and `dir` lines change nothing. */
  lemma ListingChangesNothing(s: Session, line: string)
    requires WellFormed(s)
    requires (HasPrefix(line, "$") && |line| >= 2 && !HasPrefix(line[2..], "cd") && HasPrefix(line[2..], "ls"))
             || (!HasPrefix(line, "$") && HasPrefix(line, "dir"))
    ensures ReadLine(s, line) == Some(s)
  {
  }

  /** Entering a directory adds an empty directory and changes no existing directory's size. */
  lemma EnterKeepsSizes(s: Session, path: string)
    requires WellFormed(s) && path != ".." && ChangeDirectory(s, path).Some?
    ensures var r := ChangeDirectory(s, path).value;
            && WellFormed(r) && |r.nodes| == |s.nodes| + 1
            && r.lookup[Key(s.currentPaths + [path])] == |s.nodes|
            && r.currentPaths == s.currentPaths + [path]
            && Size(r.nodes, |s.nodes|) == 0
            && forall id :: 0 <= id < |s.nodes| ==> Size(r.nodes, id) == Size(s.nodes, id)
  {
    ChangeDirectoryWellFormed(s, path);
    var r := ChangeDirectory(s, path).value;
    var id := |s.nodes|;
    assert Size(r.nodes, id) == 0 by {
      assert FilesSize(r.nodes, id, 0) == 0;
    }
    if s.root.Some? {
      var parent := r.lookup[Key(s.currentPaths)];
      var appended := s.nodes + [Directory(path, [])];
      assert Ordered(appended);
      AppendEntrySize(appended, r.nodes, parent, Subdirectory(id));
      assert Size(appended, parent) == Size(s.nodes, parent) by {
        AppendedKeepsSize(s.nodes, appended, parent);
      }
      forall i | 0 <= i < id ensures Size(r.nodes, i) == Size(s.nodes, i) {
        SizeAgrees(s.nodes, r.nodes, parent, i);
      }
    }
  }

  /** Appending a directory to the arena does not change the sizes of the existing ones. */
  lemma {:induction false} AppendedKeepsSize(nodes: seq<Directory>, appended: seq<Directory>, id: nat)
    requires Ordered(nodes) && Ordered(appended) && |nodes| <= |appended| && appended[..|nodes|] == nodes
    requires id < |nodes|
    ensures Size(appended, id) == Size(nodes, id)
    decreases |nodes| - id, |nodes[id].files| + 1
  {
    AppendedKeepsFilesSize(nodes, appended, id, |nodes[id].files|);
  }

  lemma {:induction false} AppendedKeepsFilesSize(nodes: seq<Directory>, appended: seq<Directory>, id: nat, k: nat)
    requires Ordered(nodes) && Ordered(appended) && |nodes| <= |appended| && appended[..|nodes|] == nodes
    requires id < |nodes| && k <= |nodes[id].files|
    ensures FilesSize(appended, id, k) == FilesSize(nodes, id, k)
    decreases |nodes| - id, k
  {
    assert appended[id] == nodes[id];
    if k > 0 {
      AppendedKeepsFilesSize(nodes, appended, id, k - 1);
      var last := nodes[id].files[k - 1];
      if last.Subdirectory? {
        AppendedKeepsSize(nodes, appended, last.id);
      }
    }
  }

  /** A file line raises the size of the current directory by the file's size
      and leaves every directory created after it alone. */
  lemma FileAddsToCurrent(s: Session, line: string)
    requires WellFormed(s) && AddFile(s, line).Some?
    ensures var r := AddFile(s, line).value;
            var d := s.lookup[Key(s.currentPaths)];
            && WellFormed(r)
            && Size(r.nodes, d) == Size(s.nodes, d) + ParseFile(line).value.size
            && forall id :: d < id < |s.nodes| ==> Size(r.nodes, id) == Size(s.nodes, id)
  {
    AddFileWellFormed(s, line);
    var r := AddFile(s, line).value;
    var d := s.lookup[Key(s.currentPaths)];
    AppendEntrySize(s.nodes, r.nodes, d, ParseFile(line).value);
    forall id | d < id < |s.nodes| ensures Size(r.nodes, id) == Size(s.nodes, id) {
      SizeIgnoresEarlier(s.nodes, r.nodes, d, id);
    }
  }

  /** The log replayed line by line; the first failing line stops everything. */
  function Replay(lines: seq<string>): (r: Option<Session>)
    ensures r.Some? ==> WellFormed(r.value)
  {
    if lines == [] then Some(Initial)
    else
      match Replay(lines[..|lines| - 1])
      case None => None
      case Some(s) =>
        var next := ReadLine(s, lines[|lines| - 1]);
        if next.Some? then ReadLineWellFormed(s, lines[|lines| - 1]); next else None
  }

  /** Once some line has set the root, no later line replaces it. */
  lemma {:induction false} RootNeverReplaced(lines: seq<string>, n: nat)
    requires n <= |lines| && Replay(lines[..n]).Some? && Replay(lines[..n]).value.root.Some?
    ensures Replay(lines).Some? ==> Replay(lines).value.root == Replay(lines[..n]).value.root
    decreases |lines| - n
  {
    if n < |lines| {
      assert lines[..n + 1][..n] == lines[..n];
      var s := Replay(lines[..n]).value;
      if ReadLine(s, lines[n]).Some? {
        ReadLineWellFormed(s, lines[n]);
        RootNeverReplaced(lines, n + 1);
      } else {
        ReplayStopped(lines, n + 1);
      }
    } else {
      assert lines[..n] == lines;
    }
  }

  lemma {:induction false} ReplayStopped(lines: seq<string>, n: nat)
    requires n <= |lines| && Replay(lines[..n]).None?
    ensures Replay(lines).None?
    decreases |lines| - n
  {
    if n < |lines| {
      assert lines[..n + 1][..n] == lines[..n];
      ReplayStopped(lines, n + 1);
    } else {
      assert lines[..n] == lines;
    }
  }

  /** The scanning loop of `main`, updating the path stack, the root, the
      lookup table and the directories line by line. */
  method BuildTree(lines: seq<string>) returns (session: Option<Session>)
    ensures session == Replay(lines)
  {
    var current := Session([], None, map[], []);
    for i := 0 to |lines|
      invariant Replay(lines[..i]) == Some(current)
    {
      assert lines[..i + 1][..i] == lines[..i];
      var next := ProcessLine(current, lines[i]);
      if next.None? {
        ReplayStopped(lines, i + 1);
        return None;
      }
      current := next.value;
    }
    assert lines[..|lines|] == lines;
    session := Some(current);
  }

  /** The body of the scanning loop for one line. */
  method ProcessLine(s: Session, value: string) returns (next: Option<Session>)
    requires WellFormed(s)
    ensures next == ReadLine(s, value)
  {
    if HasPrefix(value, "$") {
      if |value| < 2 {
        return None;
      }
      var command := value[2..];
      if HasPrefix(command, "cd") {
        var values := Split(command, ' ');
        if |values| < 2 {
          return None;
        }
        next := ChangeTo(s, values[1]);
      } else if HasPrefix(command, "ls") {
        next := Some(s);
      } else {
        next := None;
      }
    } else if HasPrefix(value, "dir") {
      next := Some(s);
    } else {
      var parsed := ParseFile(value);
      if parsed.None? {
        return None;
      }
      var key := Key(s.currentPaths);
      if key !in s.lookup {
        return None;
      }
      var currentDirectory := s.lookup[key];
      var nodes := s.nodes[currentDirectory := Directory(s.nodes[currentDirectory].name,
                                                         s.nodes[currentDirectory].files + [parsed.value])];
      next := Some(s.(nodes := nodes));
    }
  }

  /** The `cd` branch: pop on "..", otherwise register and attach a new directory. */
  method ChangeTo(s: Session, path: string) returns (next: Option<Session>)
    requires WellFormed(s)
    ensures next == ChangeDirectory(s, path)
  {
    var currentPaths, rootDirectory, lookup, nodes := s.currentPaths, s.root, s.lookup, s.nodes;
    if path == ".." {
      if |currentPaths| == 0 {
        return None;
      }
      currentPaths := currentPaths[..|currentPaths| - 1];
    } else {
      var directory := Directory(path, []);
      var id := |nodes|;
      var previousKey := Key(currentPaths);
      currentPaths := currentPaths + [path];
      var key := Key(currentPaths);
      lookup := lookup[key := id];
      nodes := nodes + [directory];
      if rootDirectory.None? {
        rootDirectory := Some(id);
      } else {
        if previousKey !in lookup || previousKey == key {
          return None;
        }
        var parent := lookup[previousKey];
        nodes := nodes[parent := Directory(nodes[parent].name, nodes[parent].files + [Subdirectory(id)])];
      }
    }
    next := Some(Session(currentPaths, rootDirectory, lookup, nodes));
  }

  // ---------------------------------------------------------------------------
  // Part one

  const SmallLimit := 100000

  /** The contribution of one registered directory: its size when below the limit. */
  function SmallSize(s: Session, key: string): int
    requires WellFormed(s) && key in s.lookup
  {
    var size := Size(s.nodes, s.lookup[key]);
    if size >= SmallLimit then 0 else size
  }

  /** The total over the keys in the order the map is iterated. */
  function SmallTotal(s: Session, order: seq<string>): int
    requires WellFormed(s) && forall i :: 0 <= i < |order| ==> order[i] in s.lookup
  {
    if order == [] then 0 else SmallTotal(s, order[..|order| - 1]) + SmallSize(s, order[|order| - 1])
  }

  /** `order` is an iteration order of the lookup map, as `range lookup` visits
      it: every registered key exactly once, in some order. */
  predicate IterationOrder(s: Session, order: seq<string>)
  {
    && (forall i :: 0 <= i < |order| ==> order[i] in s.lookup)
    && multiset(order) == multiset(s.lookup.Keys)
  }

  /** An iteration order visits every registered key. */
  lemma IterationOrderCovers(s: Session, order: seq<string>)
    requires IterationOrder(s, order)
    ensures forall key :: key in s.lookup ==> exists i :: 0 <= i < |order| && order[i] == key
  {
    forall key | key in s.lookup
      ensures exists i :: 0 <= i < |order| && order[i] == key
    {
      assert key in multiset(s.lookup.Keys);
      assert key in multiset(order);
      assert key in order;
    }
  }

  /** Removing one key from the iteration order removes its contribution. */
  lemma {:induction false} SmallTotalWithout(s: Session, order: seq<string>, i: nat)
    requires WellFormed(s) && (forall k :: 0 <= k < |order| ==> order[k] in s.lookup) && i < |order|
    ensures SmallTotal(s, order) == SmallTotal(s, order[..i] + order[i + 1..]) + SmallSize(s, order[i])
  {
    var n := |order| - 1;
    if i < n {
      var rest := order[..i] + order[i + 1..];
      assert rest[..|rest| - 1] == order[..n][..i] + order[..n][i + 1..];
      assert rest[|rest| - 1] == order[n];
      SmallTotalWithout(s, order[..n], i);
    } else {
      assert order[..i] + order[i + 1..] == order[..n];
    }
  }

  /** Orders with the same keys name only registered directories. */
  lemma SameKeysRegistered(s: Session, a: seq<string>, b: seq<string>)
    requires (forall k :: 0 <= k < |a| ==> a[k] in s.lookup) && multiset(a) == multiset(b)
    ensures forall k :: 0 <= k < |b| ==> b[k] in s.lookup
  {
    forall k | 0 <= k < |b| ensures b[k] in s.lookup {
      assert b[k] in multiset(a);
      var j :| 0 <= j < |a| && a[j] == b[k];
    }
  }

  /** Dropping the last key of one order and a matching key of the other keeps them permutations. */
  lemma DropMatched(a: seq<string>, b: seq<string>, i: nat)
    requires multiset(a) == multiset(b) && |a| > 0 && i < |b| && b[i] == a[|a| - 1]
    ensures multiset(a[..|a| - 1]) == multiset(b[..i] + b[i + 1..])
  {
    var n := |a| - 1;
    assert a == a[..n] + [a[n]];
    assert b == b[..i] + [b[i]] + b[i + 1..];
    assert multiset(a[..n]) == multiset(a) - multiset{a[n]};
    assert multiset(b[..i] + b[i + 1..]) == multiset(b) - multiset{b[i]};
  }

  /** The part-one total does not depend on the map's iteration order. */
  lemma {:induction false} SmallTotalAnyOrder(s: Session, a: seq<string>, b: seq<string>)
    requires WellFormed(s) && (forall k :: 0 <= k < |a| ==> a[k] in s.lookup)
    requires multiset(a) == multiset(b)
    ensures forall k :: 0 <= k < |b| ==> b[k] in s.lookup
    ensures SmallTotal(s, a) == SmallTotal(s, b)
    decreases |a|
  {
    SameKeysRegistered(s, a, b);
    if a != [] {
      var n := |a| - 1;
      assert a[n] in multiset(b) by {
        assert a[n] in multiset(a);
      }
      var i :| 0 <= i < |b| && b[i] == a[n];
      DropMatched(a, b, i);
      SmallTotalAnyOrder(s, a[..n], b[..i] + b[i + 1..]);
      SmallTotalWithout(s, b, i);
    } else {
      assert b == [] by {
        assert |multiset(b)| == 0;
      }
    }
  }

  /** The part-one loop over the lookup table, visited in the order `order`. */
  method SumSmallDirectories(s: Session, order: seq<string>) returns (total: int)
    requires WellFormed(s) && IterationOrder(s, order)
    ensures total == SmallTotal(s, order)
    ensures forall other :: IterationOrder(s, other) ==> SmallTotal(s, other) == total
  {
    forall other | IterationOrder(s, other)
      ensures SmallTotal(s, other) == SmallTotal(s, order)
    {
      SmallTotalAnyOrder(s, order, other);
    }
    total := 0;
    for i := 0 to |order|
      invariant total == SmallTotal(s, order[..i])
    {
      assert order[..i + 1][..i] == order[..i];
      var size := GetSize(s.nodes, s.lookup[order[i]]);
      if size >= SmallLimit {
        continue;
      }
      total := total + size;
    }
    assert order[..|order|] == order;
  }

  // ---------------------------------------------------------------------------
  // Part two

  const TotalSpace := 70000000
  const UpdateSize := 30000000

  /** A directory other than "/" whose deletion leaves room for the update. */
  predicate Eligible(s: Session, key: string)
    requires WellFormed(s) && s.root.Some? && key in s.lookup
  {
    key != "/" && Size(s.nodes, s.lookup[key]) >= UpdateSize - (TotalSpace - Size(s.nodes, s.root.value))
  }

  /** The first directory of smallest size, as `sort.SliceStable` by size followed by `[0]` picks it. */
  function FirstSmallest(s: Session, ids: seq<nat>): (k: nat)
    requires Ordered(s.nodes) && |ids| > 0 && forall i :: 0 <= i < |ids| ==> ids[i] < |s.nodes|
    ensures k < |ids|
    ensures forall i :: 0 <= i < |ids| ==> Size(s.nodes, ids[k]) <= Size(s.nodes, ids[i])
    ensures forall i :: 0 <= i < k ==> Size(s.nodes, ids[k]) < Size(s.nodes, ids[i])
  {
    if |ids| == 1 then 0
    else
      var k := FirstSmallest(s, ids[..|ids| - 1]);
      assert forall i :: 0 <= i < |ids| - 1 ==> ids[..|ids| - 1][i] == ids[i];
      if Size(s.nodes, ids[|ids| - 1]) < Size(s.nodes, ids[k]) then |ids| - 1 else k
  }

  /** `eligible` holds, in order, the directories of the eligible keys among
      the first `n` of `order`; `positions` says where each one was found. */
  ghost predicate Collected(s: Session, order: seq<string>, n: nat, eligible: seq<nat>, positions: seq<nat>)
    requires WellFormed(s) && s.root.Some? && n <= |order|
    requires forall i :: 0 <= i < |order| ==> order[i] in s.lookup
  {
    && |eligible| == |positions|
    && (forall k :: 0 <= k < |positions| ==>
          positions[k] < n && Eligible(s, order[positions[k]]) && eligible[k] == s.lookup[order[positions[k]]])
    && (forall k, m :: 0 <= k < m < |positions| ==> positions[k] < positions[m])
    && (forall j :: 0 <= j < n && Eligible(s, order[j]) ==> exists k :: 0 <= k < |positions| && positions[k] == j)
  }

  /** The filtering loop of part two: skip "/" and every directory too small to free enough space. */
  method CollectEligible(s: Session, order: seq<string>) returns (eligible: seq<nat>, ghost positions: seq<nat>)
    requires WellFormed(s) && s.root.Some? && IterationOrder(s, order)
    ensures Collected(s, order, |order|, eligible, positions)
  {
    var rootSize := GetSize(s.nodes, s.root.value);
    var unusedSpace := TotalSpace - rootSize;
    var minimumSpaceNeededForUpdate := UpdateSize - unusedSpace;
    eligible := [];
    positions := [];
    for i := 0 to |order|
      invariant Collected(s, order, i, eligible, positions)
    {
      var key := order[i];
      if key != "/" {
        var size := GetSize(s.nodes, s.lookup[key]);
        if size >= minimumSpaceNeededForUpdate {
          CollectedAdd(s, order, i, eligible, positions);
          eligible := eligible + [s.lookup[key]];
          positions := positions + [i];
          continue;
        }
      }
      CollectedSkip(s, order, i, eligible, positions);
    }
  }

  /** An eligible key found at `i` is collected at the end. */
  lemma CollectedAdd(s: Session, order: seq<string>, i: nat, eligible: seq<nat>, positions: seq<nat>)
    requires WellFormed(s) && s.root.Some? && i < |order|
    requires forall j :: 0 <= j < |order| ==> order[j] in s.lookup
    requires Collected(s, order, i, eligible, positions) && Eligible(s, order[i])
    ensures Collected(s, order, i + 1, eligible + [s.lookup[order[i]]], positions + [i])
  {
    var extended := positions + [i];
    assert extended[|positions|] == i;
    assert forall k :: 0 <= k < |positions| ==> extended[k] == positions[k];
  }

  /** A key that is not eligible leaves the collection as it is. */
  lemma CollectedSkip(s: Session, order: seq<string>, i: nat, eligible: seq<nat>, positions: seq<nat>)
    requires WellFormed(s) && s.root.Some? && i < |order|
    requires forall j :: 0 <= j < |order| ==> order[j] in s.lookup
    requires Collected(s, order, i, eligible, positions) && !Eligible(s, order[i])
    ensures Collected(s, order, i + 1, eligible, positions)
  {
  }

  /** Part two: the eligible directories in iteration order, then the first
      of smallest size. A missing root, or no eligible directory, panics. */
  method SelectDirectory(s: Session, order: seq<string>) returns (selected: Option<nat>)
    requires WellFormed(s) && IterationOrder(s, order)
    ensures s.root.None? ==> selected.None?
    ensures s.root.Some? ==>
              (selected.Some? <==> exists key :: key in s.lookup && Eligible(s, key))
    ensures selected.Some? ==>
              && s.root.Some?
              && exists key :: && key in s.lookup && Eligible(s, key) && s.lookup[key] == selected.value
                            && forall other :: other in s.lookup && Eligible(s, other) ==>
                                 Size(s.nodes, selected.value) <= Size(s.nodes, s.lookup[other])
    ensures selected.Some? ==>
              && s.root.Some?
              && exists i :: && 0 <= i < |order| && Eligible(s, order[i])
                          && s.lookup[order[i]] == selected.value
                          && forall j :: 0 <= j < i && Eligible(s, order[j]) ==>
                               Size(s.nodes, selected.value) < Size(s.nodes, s.lookup[order[j]])
  {
    if s.root.None? {
      return None;
    }
    ghost var positions;
    var eligible;
    eligible, positions := CollectEligible(s, order);
    if |eligible| == 0 {
      NoneEligible(s, order, eligible, positions);
      return None;
    }
    var k := FirstSmallest(s, eligible);
    selected := Some(eligible[k]);
    SmallestEligible(s, order, eligible, positions, k);
    SmallestOverKeys(s, order, positions[k], eligible[k]);
  }

  /** When the filter keeps nothing, no registered key is eligible. */
  lemma NoneEligible(s: Session, order: seq<string>, eligible: seq<nat>, positions: seq<nat>)
    requires WellFormed(s) && s.root.Some? && IterationOrder(s, order)
    requires Collected(s, order, |order|, eligible, positions) && |eligible| == 0
    ensures forall key :: key in s.lookup ==> !Eligible(s, key)
  {
    IterationOrderCovers(s, order);
    forall key | key in s.lookup
      ensures !Eligible(s, key)
    {
      var j :| 0 <= j < |order| && order[j] == key;
    }
  }

  /** The smallest over an iteration order is the smallest over all registered keys. */
  lemma SmallestOverKeys(s: Session, order: seq<string>, i: nat, id: nat)
    requires WellFormed(s) && s.root.Some? && IterationOrder(s, order) && i < |order|
    requires Eligible(s, order[i]) && s.lookup[order[i]] == id
    requires forall j :: 0 <= j < |order| && Eligible(s, order[j]) ==>
               Size(s.nodes, id) <= Size(s.nodes, s.lookup[order[j]])
    ensures exists key :: && key in s.lookup && Eligible(s, key) && s.lookup[key] == id
                         && forall other :: other in s.lookup && Eligible(s, other) ==>
                              Size(s.nodes, id) <= Size(s.nodes, s.lookup[other])
  {
    IterationOrderCovers(s, order);
    var key := order[i];
    forall other | other in s.lookup && Eligible(s, other)
      ensures Size(s.nodes, id) <= Size(s.nodes, s.lookup[other])
    {
      var j :| 0 <= j < |order| && order[j] == other;
    }
    assert key in s.lookup && Eligible(s, key) && s.lookup[key] == id;
  }

  /** The first smallest of the collected directories is the first smallest
      of all eligible keys of `order`. */
  lemma SmallestEligible(s: Session, order: seq<string>, eligible: seq<nat>, positions: seq<nat>, k: nat)
    requires WellFormed(s) && s.root.Some? && forall i :: 0 <= i < |order| ==> order[i] in s.lookup
    requires Collected(s, order, |order|, eligible, positions) && k < |eligible|
    requires forall i :: 0 <= i < |eligible| ==> Size(s.nodes, eligible[k]) <= Size(s.nodes, eligible[i])
    requires forall i :: 0 <= i < k ==> Size(s.nodes, eligible[k]) < Size(s.nodes, eligible[i])
    ensures var i := positions[k];
            && 0 <= i < |order| && Eligible(s, order[i]) && s.lookup[order[i]] == eligible[k]
            && (forall j :: 0 <= j < |order| && Eligible(s, order[j]) ==>
                  Size(s.nodes, eligible[k]) <= Size(s.nodes, s.lookup[order[j]]))
            && (forall j :: 0 <= j < i && Eligible(s, order[j]) ==>
                  Size(s.nodes, eligible[k]) < Size(s.nodes, s.lookup[order[j]]))
  {
    forall j | 0 <= j < |order| && Eligible(s, order[j])
      ensures Size(s.nodes, eligible[k]) <= Size(s.nodes, s.lookup[order[j]])
    {
      var m :| 0 <= m < |positions| && positions[m] == j;
    }
    forall j | 0 <= j < positions[k] && Eligible(s, order[j])
      ensures Size(s.nodes, eligible[k]) < Size(s.nodes, s.lookup[order[j]])
    {
      var m :| 0 <= m < |positions| && positions[m] == j;
    }
  }
}
