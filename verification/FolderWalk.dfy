/** Sending a folder: the walk that collects its files, the manifest, and the files sent. */
module FolderWalk {
  import opened Wrappers
  import opened Bytes

  type Name = string
  type Path = seq<Name>

  /** A directory entry. `Other` is anything that is neither a directory nor a regular file, as
      a symbolic link. */
  datatype Node =
    | File(name: Name, size: U64)
    | Dir(name: Name, readable: bool, entries: seq<Node>)
    | Other(name: Name)

  datatype Found = Found(path: Path, size: U64)

  // ---------------------------------------------------------------- the recursive walk

  function FilesOf(path: Path, node: Node): seq<Found>
    decreases node, 0
  {
    match node
    case File(name, size) => [Found(path + [name], size)]
    case Dir(name, _, entries) => FilesUnder(path + [name], entries)
    case Other(_) => []
  }

  function FilesUnder(path: Path, entries: seq<Node>): seq<Found>
    decreases entries, 1
  {
    if entries == [] then [] else FilesOf(path, entries[0]) + FilesUnder(path, entries[1..])
  }

  predicate AllReadable(entries: seq<Node>)
    decreases entries, 1
  {
    entries != [] ==> Readable(entries[0]) && AllReadable(entries[1..])
  }

  predicate Readable(node: Node)
    decreases node, 0
  {
    node.Dir? ==> node.readable && AllReadable(node.entries)
  }

  function Size(entries: seq<Node>): nat
    decreases entries, 1
  {
    if entries == [] then 0 else NodeSize(entries[0]) + Size(entries[1..])
  }

  function NodeSize(node: Node): (n: nat)
    ensures n > 0
    decreases node, 0
  {
    if node.Dir? then 1 + Size(node.entries) else 1
  }

  // ---------------------------------------------------------------- the walk with a stack

  datatype FolderError = Unreadable | NoFiles | OfferNotSent | Refused | NoneOffered

  /** A directory still to be read: its path, and what reading it comes to. */
  datatype Pending = Pending(path: Path, readable: bool, entries: seq<Node>)

  ghost function StackFiles(stack: seq<Pending>): multiset<Found>
  {
    if stack == [] then multiset{}
    else
      var last := stack[|stack| - 1];
      StackFiles(stack[..|stack| - 1]) + multiset(FilesUnder(last.path, last.entries))
  }

  ghost predicate StackReadable(stack: seq<Pending>)
  {
    stack != [] ==>
      var last := stack[|stack| - 1];
      StackReadable(stack[..|stack| - 1]) && last.readable && AllReadable(last.entries)
  }

  ghost function StackSize(stack: seq<Pending>): nat
  {
    if stack == [] then 0 else StackSize(stack[..|stack| - 1]) + 1 + Size(stack[|stack| - 1].entries)
  }

  lemma Pushed(stack: seq<Pending>, p: Pending)
    ensures StackFiles(stack + [p]) == StackFiles(stack) + multiset(FilesUnder(p.path, p.entries))
    ensures StackReadable(stack + [p]) <==> StackReadable(stack) && p.readable && AllReadable(p.entries)
    ensures StackSize(stack + [p]) == StackSize(stack) + 1 + Size(p.entries)
  {
    assert (stack + [p])[..|stack|] == stack;
  }

  lemma FirstEntry(path: Path, entries: seq<Node>, i: nat)
    requires i < |entries|
    ensures FilesUnder(path, entries[i..]) == FilesOf(path, entries[i]) + FilesUnder(path, entries[i + 1..])
    ensures AllReadable(entries[i..]) <==> Readable(entries[i]) && AllReadable(entries[i + 1..])
    ensures Size(entries[i..]) == NodeSize(entries[i]) + Size(entries[i + 1..])
  {
    assert entries[i..][1..] == entries[i + 1..];
  }

  lemma Nothing(path: Path)
    ensures StackFiles([]) == multiset{} && StackReadable([]) && StackSize([]) == 0
    ensures FilesUnder(path, []) == [] && AllReadable([]) && Size([]) == 0
  {
  }

  lemma OneEntry(path: Path, node: Node)
    ensures node.Dir? ==> FilesOf(path, node) == FilesUnder(path + [node.name], node.entries)
    ensures node.Dir? ==> (Readable(node) <==> node.readable && AllReadable(node.entries))
    ensures node.Dir? ==> NodeSize(node) == 1 + Size(node.entries)
    ensures node.File? ==> FilesOf(path, node) == [Found(path + [node.name], node.size)]
    ensures node.Other? ==> FilesOf(path, node) == []
    ensures !node.Dir? ==> Readable(node) && NodeSize(node) == 1
  {
  }

  /** The inner loop: one directory's regular files are found, its directories pushed. */
  method ReadDirectory(current: Pending, found: seq<Found>, pending: seq<Pending>)
    returns (files: seq<Found>, stack: seq<Pending>)
    ensures multiset(files) + StackFiles(stack) ==
            multiset(found) + StackFiles(pending) + multiset(FilesUnder(current.path, current.entries))
    ensures StackReadable(stack) <==> StackReadable(pending) && AllReadable(current.entries)
    ensures StackSize(stack) <= StackSize(pending) + Size(current.entries)
  {
    hide *;
    files, stack := found, pending;
    assert current.entries[0..] == current.entries;
    for i := 0 to |current.entries|
      invariant multiset(files) + StackFiles(stack) + multiset(FilesUnder(current.path, current.entries[i..])) ==
                multiset(found) + StackFiles(pending) + multiset(FilesUnder(current.path, current.entries))
      invariant StackReadable(stack) && AllReadable(current.entries[i..]) <==>
                StackReadable(pending) && AllReadable(current.entries)
      invariant StackSize(stack) + Size(current.entries[i..]) <= StackSize(pending) + Size(current.entries)
    {
      var entry := current.entries[i];
      FirstEntry(current.path, current.entries, i);
      OneEntry(current.path, entry);
      if entry.Dir? {
        var inner := Pending(current.path + [entry.name], entry.readable, entry.entries);
        Pushed(stack, inner);
        stack := stack + [inner];
      } else if entry.File? {
        files := files + [Found(current.path + [entry.name], entry.size)];
      }
    }
    Nothing(current.path);
    assert current.entries[|current.entries|..] == [];
  }

  /** Ends on every finite tree. It fails exactly when some directory cannot be read, and
      otherwise finds what the recursive walk finds. */
  method CollectFilesRecursive(readable: bool, entries: seq<Node>) returns (r: Result<seq<Found>, FolderError>)
    ensures r.Ok? <==> readable && AllReadable(entries)
    ensures r.Ok? ==> multiset(r.value) == multiset(FilesUnder([], entries))
    ensures r.Err? ==> r.error == Unreadable
  {
    hide *;
    var files: seq<Found> := [];
    var stack: seq<Pending> := [Pending([], readable, entries)];
    Nothing([]);
    Pushed([], Pending([], readable, entries));
    assert stack == [] + stack;
    while stack != []
      invariant multiset(files) + StackFiles(stack) == multiset(FilesUnder([], entries))
      invariant StackReadable(stack) <==> readable && AllReadable(entries)
      decreases StackSize(stack)
    {
      var current := stack[|stack| - 1];
      Pushed(stack[..|stack| - 1], current);
      assert stack == stack[..|stack| - 1] + [current];
      stack := stack[..|stack| - 1];
      if !current.readable { return Err(Unreadable); }
      files, stack := ReadDirectory(current, files, stack);
    }
    return Ok(files);
  }

  // ---------------------------------------------------------------- what the walk finds

  predicate DistinctNames(entries: seq<Node>)
    decreases entries, 1
  {
    entries != [] ==>
      && (forall k :: 1 <= k < |entries| ==> entries[k].name != entries[0].name)
      && NodeDistinct(entries[0]) && DistinctNames(entries[1..])
  }

  predicate NodeDistinct(node: Node)
    decreases node, 0
  {
    node.Dir? ==> DistinctNames(node.entries)
  }

  /** The entry a path leads to. */
  function At(entries: seq<Node>, path: Path): Option<Node>
    decreases |path|, |entries|
  {
    if path == [] || entries == [] then None
    else if entries[0].name != path[0] then At(entries[1..], path)
    else if |path| == 1 then Some(entries[0])
    else if entries[0].Dir? then At(entries[0].entries, path[1..])
    else None
  }

  ghost predicate BelowOneOf(f: Found, path: Path, entries: seq<Node>)
  {
    |f.path| > |path| && f.path[..|path|] == path
    && exists k :: 0 <= k < |entries| && entries[k].name == f.path[|path|]
  }

  lemma {:induction false} FoundBelow(path: Path, entries: seq<Node>, f: Found)
    requires f in FilesUnder(path, entries)
    ensures BelowOneOf(f, path, entries)
    decreases entries
  {
    var node := entries[0];
    if f in FilesOf(path, node) {
      if node.Dir? {
        FoundBelow(path + [node.name], node.entries, f);
        assert f.path[..|path|] == f.path[..|path| + 1][..|path|];
        assert f.path[|path|] == f.path[..|path| + 1][|path|];
      }
      assert entries[0].name == f.path[|path|];
    } else {
      FoundBelow(path, entries[1..], f);
      var k :| 0 <= k < |entries[1..]| && entries[1..][k].name == f.path[|path|];
      assert entries[k + 1].name == f.path[|path|];
    }
  }

  lemma NotBelow(path: Path, entries: seq<Node>, rest: Path, size: U64)
    requires rest == [] || forall k :: 0 <= k < |entries| ==> entries[k].name != rest[0]
    ensures multiset(FilesUnder(path, entries))[Found(path + rest, size)] == 0
  {
    hide FilesUnder;
    if Found(path + rest, size) in FilesUnder(path, entries) { FoundBelow(path, entries, Found(path + rest, size)); }
  }

  lemma OneFile(path: Path, name: Name, s: U64, rest: Path, size: U64)
    requires rest != [] && rest[0] == name
    ensures multiset(FilesOf(path, File(name, s)))[Found(path + rest, size)] ==
            if rest == [name] && s == size then 1 else 0
  {
    assert |rest| > 1 ==> |path + rest| > |path + [name]|;
    assert |rest| == 1 ==> rest == [name];
  }

  lemma FirstAndOthers(path: Path, entries: seq<Node>, f: Found)
    requires entries != []
    ensures multiset(FilesUnder(path, entries))[f] ==
            multiset(FilesOf(path, entries[0]))[f] + multiset(FilesUnder(path, entries[1..]))[f]
  {
  }

  /** Nothing below `entries` is found twice, and what is found is exactly the regular files. */
  lemma {:induction false} EachFileOnce(path: Path, entries: seq<Node>, rest: Path, size: U64)
    requires DistinctNames(entries)
    ensures multiset(FilesUnder(path, entries))[Found(path + rest, size)] ==
            if rest != [] && At(entries, rest) == Some(File(rest[|rest| - 1], size)) then 1 else 0
    decreases entries
  {
    var f := Found(path + rest, size);
    if entries == [] || rest == [] {
      NotBelow(path, entries, rest, size);
    } else {
      var node, others := entries[0], entries[1..];
      FirstAndOthers(path, entries, f);
      hide FilesUnder, FilesOf;
      if rest[0] != node.name {
        NotBelow(path, [node], rest, size);
        FirstAndOthers(path, [node], f);
        EachFileOnce(path, others, rest, size);
      } else {
        NotBelow(path, others, rest, size);
        InFirst(path, node, rest, size);
      }
    }
  }

  lemma {:induction false} InFirst(path: Path, node: Node, rest: Path, size: U64)
    requires NodeDistinct(node) && rest != [] && rest[0] == node.name
    ensures multiset(FilesOf(path, node))[Found(path + rest, size)] ==
            if At([node], rest) == Some(File(rest[|rest| - 1], size)) then 1 else 0
    decreases node
  {
    match node
    case File(name, s) => OneFile(path, name, s, rest, size);
    case Dir(name, _, entries) =>
      assert path + rest == (path + [name]) + rest[1..];
      EachFileOnce(path + [name], entries, rest[1..], size);
    case Other(_) =>
  }

  /** A successful walk returns each regular file of the folder once, and nothing else. */
  lemma WalkReturnsEachFileOnce(entries: seq<Node>, files: seq<Found>, path: Path, size: U64)
    requires DistinctNames(entries) && multiset(files) == multiset(FilesUnder([], entries))
    ensures multiset(files)[Found(path, size)] ==
            if path != [] && At(entries, path) == Some(File(path[|path| - 1], size)) then 1 else 0
  {
    assert [] + path == path;
    EachFileOnce([], entries, path, size);
  }

  lemma {:induction false} AtHasName(entries: seq<Node>, path: Path)
    requires At(entries, path).Some?
    ensures exists k :: 0 <= k < |entries| && entries[k].name == path[0]
    decreases |entries|
  {
    if entries[0].name != path[0] {
      AtHasName(entries[1..], path);
      var k :| 0 <= k < |entries[1..]| && entries[1..][k].name == path[0];
      assert entries[k + 1].name == path[0];
    }
  }

  lemma {:induction false} ReadableAt(entries: seq<Node>, path: Path)
    requires AllReadable(entries) && At(entries, path).Some? && At(entries, path).value.Dir?
    ensures At(entries, path).value.readable
    decreases |path|, |entries|
  {
    if entries[0].name != path[0] { ReadableAt(entries[1..], path); }
    else if |path| > 1 { ReadableAt(entries[0].entries, path[1..]); }
  }

  lemma {:induction false} UnreadablePath(entries: seq<Node>) returns (path: Path)
    requires DistinctNames(entries) && !AllReadable(entries)
    ensures At(entries, path).Some? && At(entries, path).value.Dir? && !At(entries, path).value.readable
    decreases entries
  {
    var node := entries[0];
    if Readable(node) {
      path := UnreadablePath(entries[1..]);
      AtHasName(entries[1..], path);
      assert forall k :: 0 <= k < |entries[1..]| ==> entries[1..][k] == entries[k + 1];
    } else if !node.readable {
      path := [node.name];
    } else {
      var inner := UnreadablePath(node.entries);
      path := [node.name] + inner;
      assert path[1..] == inner;
    }
  }

  /** The walk can be done if and only if every directory in the folder, however deep, can be
      read. */
  lemma AllReadableIff(entries: seq<Node>)
    requires DistinctNames(entries)
    ensures AllReadable(entries) <==>
            forall path :: At(entries, path).Some? && At(entries, path).value.Dir? ==> At(entries, path).value.readable
  {
    if AllReadable(entries) {
      forall path | At(entries, path).Some? && At(entries, path).value.Dir?
        ensures At(entries, path).value.readable
      {
        ReadableAt(entries, path);
      }
    } else {
      var path := UnreadablePath(entries);
    }
  }

  // ---------------------------------------------------------------- sending what was found

  type TransferId = string

  function SizeSum(files: seq<Found>): nat
  {
    if files == [] then 0 else SizeSum(files[..|files| - 1]) + files[|files| - 1].size
  }

  /** The bytes in all regular files of a folder. */
  function TreeBytes(entries: seq<Node>): nat
    decreases entries, 1
  {
    if entries == [] then 0 else NodeBytes(entries[0]) + TreeBytes(entries[1..])
  }

  function NodeBytes(node: Node): nat
    decreases node, 0
  {
    match node
    case File(_, size) => size
    case Dir(_, _, entries) => TreeBytes(entries)
    case Other(_) => 0
  }

  lemma {:induction false} SizeSumSplits(a: seq<Found>, b: seq<Found>)
    ensures SizeSum(a + b) == SizeSum(a) + SizeSum(b)
  {
    if b == [] {
      assert a + b == a;
    } else {
      assert (a + b)[..|a + b| - 1] == a + b[..|b| - 1];
      SizeSumSplits(a, b[..|b| - 1]);
    }
  }

  lemma {:induction false} NodeSizes(path: Path, node: Node)
    ensures SizeSum(FilesOf(path, node)) == NodeBytes(node)
    decreases node, 0
  {
    match node
    case File(name, size) => assert [Found(path + [name], size)][..0] == [];
    case Dir(name, _, entries) => TreeSizes(path + [name], entries);
    case Other(_) =>
  }

  lemma {:induction false} TreeSizes(path: Path, entries: seq<Node>)
    ensures SizeSum(FilesUnder(path, entries)) == TreeBytes(entries)
    decreases entries, 1
  {
    if entries != [] {
      NodeSizes(path, entries[0]);
      TreeSizes(path, entries[1..]);
      SizeSumSplits(FilesOf(path, entries[0]), FilesUnder(path, entries[1..]));
    }
  }

  lemma {:induction false} SizeSumOfPermutation(a: seq<Found>, b: seq<Found>)
    requires multiset(a) == multiset(b)
    ensures SizeSum(a) == SizeSum(b)
    decreases |a|
  {
    if a == [] {
      assert |multiset(b)| == 0;
    } else {
      var init, last := a[..|a| - 1], a[|a| - 1];
      assert a == init + [last];
      assert last in multiset(a) && last in b;
      var k :| 0 <= k < |b| && b[k] == last;
      TakeOut(b, k);
      hide SizeSum;
      SizeSumOfPermutation(init, b[..k] + b[k + 1..]);
      assert SizeSum(a) == SizeSum(init) + last.size by { TakeOut(a, |a| - 1); assert init + a[|a|..] == init; }
    }
  }

  lemma SizeSumOfOne(f: Found)
    ensures SizeSum([f]) == f.size
  {
    assert [f][..0] == [];
  }

  lemma TakeOut(s: seq<Found>, k: nat)
    requires k < |s|
    ensures multiset(s[..k] + s[k + 1..]) == multiset(s) - multiset{s[k]}
    ensures SizeSum(s) == SizeSum(s[..k] + s[k + 1..]) + s[k].size
  {
    hide SizeSum;
    var a, one, b := s[..k], [s[k]], s[k + 1..];
    assert s == a + one + b;
    SizeSumSplits(a, one);
    SizeSumSplits(a + one, b);
    SizeSumSplits(a, b);
    SizeSumOfOne(s[k]);
  }

  /** Whatever order the walk finds the files in, their sizes add up to the bytes in the folder. */
  lemma WalkFindsAllBytes(entries: seq<Node>, files: seq<Found>)
    requires multiset(files) == multiset(FilesUnder([], entries))
    ensures SizeSum(files) == TreeBytes(entries)
  {
    SizeSumOfPermutation(files, FilesUnder([], entries));
    TreeSizes([], entries);
  }

  /** What the files sent came to, in the order of the manifest. `outcome(i)` is the transfer
      that offering file `i` started, or nothing if the offer failed. */
  function Started(files: seq<Found>, outcome: nat -> Option<TransferId>): seq<(Path, TransferId)>
  {
    if files == [] then []
    else
      var n := |files| - 1;
      Started(files[..n], outcome) +
      (if outcome(n).Some? then [(files[n].path, outcome(n).value)] else [])
  }

  /** The offered total, a 64-bit sum. */
  method Manifest(files: seq<Found>) returns (paths: seq<Path>, totalSize: U64)
    ensures |paths| == |files| && forall i :: 0 <= i < |files| ==> paths[i] == files[i].path
    ensures totalSize == SizeSum(files) % U64_LIMIT
  {
    paths, totalSize := [], 0;
    for i := 0 to |files|
      invariant |paths| == i && forall k :: 0 <= k < i ==> paths[k] == files[k].path
      invariant totalSize == SizeSum(files[..i]) % U64_LIMIT
    {
      assert files[..i + 1][..i] == files[..i];
      totalSize := (totalSize + files[i].size) % U64_LIMIT;
      paths := paths + [files[i].path];
    }
    assert files[..|files|] == files;
  }

  /** `decision` is the peer's one reply, or nothing when it timed out. */
  method SendFolder(readable: bool, entries: seq<Node>, offerSent: bool, decision: Option<bool>,
                    outcome: nat -> Option<TransferId>)
    returns (r: Result<seq<(Path, TransferId)>, FolderError>, files: seq<Found>, totalSize: U64)
    ensures r == Err(Unreadable) <==> !readable || !AllReadable(entries)
    ensures r != Err(Unreadable) ==> multiset(files) == multiset(FilesUnder([], entries))
    ensures r != Err(Unreadable) ==> (r == Err(NoFiles) <==> files == [])
    ensures r != Err(Unreadable) && files != [] ==>
              && totalSize == TreeBytes(entries) % U64_LIMIT
              && (r == Err(OfferNotSent) <==> !offerSent)
              && (offerSent ==> (r == Err(Refused) <==> decision != Some(true)))
              && (offerSent && decision == Some(true) ==>
                    r == if Started(files, outcome) == [] then Err(NoneOffered) else Ok(Started(files, outcome)))
  {
    hide FilesUnder, AllReadable;
    files, totalSize := [], 0;
    var collected := CollectFilesRecursive(readable, entries);
    if collected.Err? { return Err(Unreadable), files, totalSize; }
    files := collected.value;
    if files == [] { return Err(NoFiles), files, totalSize; }
    var paths: seq<Path>;
    paths, totalSize := Manifest(files);
    WalkFindsAllBytes(entries, files);
    if !offerSent { return Err(OfferNotSent), files, totalSize; }
    if decision != Some(true) { return Err(Refused), files, totalSize; }
    var results: seq<(Path, TransferId)> := [];
    for i := 0 to |files|
      invariant results == Started(files[..i], outcome)
    {
      assert files[..i + 1][..i] == files[..i];
      match outcome(i)
      case Some(id) => results := results + [(paths[i], id)];
      case None =>
    }
    assert files[..|files|] == files;
    if results == [] { return Err(NoneOffered), files, totalSize; }
    return Ok(results), files, totalSize;
  }

  /** The files whose offer went out. */
  function Offered(n: nat, outcome: nat -> Option<TransferId>): seq<nat>
  {
    if n == 0 then [] else Offered(n - 1, outcome) + (if outcome(n - 1).Some? then [n - 1] else [])
  }

  lemma {:induction false} OfferedAscends(n: nat, outcome: nat -> Option<TransferId>)
    ensures forall i :: i in Offered(n, outcome) <==> 0 <= i < n && outcome(i).Some?
    ensures forall j, k :: 0 <= j < k < |Offered(n, outcome)| ==> Offered(n, outcome)[j] < Offered(n, outcome)[k]
  {
    if n > 0 {
      OfferedAscends(n - 1, outcome);
      var before := Offered(n - 1, outcome);
      assert forall k :: 0 <= k < |before| ==> before[k] in before;
    }
  }

  /** The results follow the manifest: they are those of exactly the files whose offer went
      out, in the order of the manifest, each under its own path. */
  lemma {:induction false} ResultsFollowManifest(files: seq<Found>, outcome: nat -> Option<TransferId>)
    ensures |Started(files, outcome)| == |Offered(|files|, outcome)|
    ensures forall k :: 0 <= k < |Offered(|files|, outcome)| ==>
              var i := Offered(|files|, outcome)[k];
              i < |files| && outcome(i).Some? && Started(files, outcome)[k] == (files[i].path, outcome(i).value)
  {
    if files != [] { ResultsFollowManifest(files[..|files| - 1], outcome); }
  }
}
