/**
  How a POSIX file system finds the file of a state text (`_read_state` and `_delete_state` in
  `packages/entertainment_curator/youtube_oauth.py`): the instance of the registry's `locate` that follows
  the path `<token directory>/states/<state>.json` through the directories there are.
*/
module StatePaths {
  import opened OAuth
  import opened Text
  import Seqs

  /** The token directory, as the names on the way from the root, and which paths are directories. */
  datatype Tree = Tree(root: seq<string>, directories: seq<string> -> bool)

  const STATES := "states"

  /** `<name>.json` in a directory. */
  function FileIn(tree: Tree, at: seq<string>, name: string): Place {
    if at == tree.root + [STATES] then StateFile(name)
    else if at == tree.root && name in PROFILES then TokenFile(name)
    else OtherFile(at + [name])
  }

  /** Where a file is what: tokens by the names of profiles in the token directory, states below it. */
  lemma FileInExactly(tree: Tree, at: seq<string>, name: string)
    ensures forall n :: FileIn(tree, at, name) == StateFile(n) <==> at == tree.root + ["states"] && n == name
    ensures forall p :: FileIn(tree, at, name) == TokenFile(p) <==> at == tree.root && p == name && p in PROFILES
    ensures forall path :: FileIn(tree, at, name) == OtherFile(path) ==> path == at + [name]
  {
  }

  /** One step from a directory: the root is its own parent. */
  function Enter(at: seq<string>, name: string): seq<string> {
    if name == "" || name == "." then at
    else if name != ".." then at + [name]
    else if at == [] then [] else at[..|at| - 1]
  }

  /** The file at the end of a path, or none if something on the way is no directory. */
  function Walk(tree: Tree, at: seq<string>, path: string): Place
    decreases |path|
  {
    var k := Find(path, "/");
    if k < 0 || k >= |path| then FileIn(tree, at, path)
    else
      var next := Enter(at, path[..k]);
      if tree.directories(next) then Walk(tree, next, path[k + 1..]) else Nowhere
  }

  /** A path that begins with a slash is absolute: what it is joined to does not matter. */
  function LocateIn(tree: Tree, state: string): Place {
    Walk(tree, if state != "" && state[0] == '/' then [] else tree.root + [STATES], state)
  }

  // ----- slashes

  lemma SlashAt(s: string, k: nat)
    ensures OccursAt(s, "/", k) <==> k < |s| && s[k] == '/'
  {
    if k < |s| {
      assert s[k..k + 1] == [s[k]];
    }
  }

  lemma NoSlash(s: string)
    requires '/' !in s
    ensures Find(s, "/") < 0
  {
    hide OccursAt;
    forall k: nat ensures !OccursAt(s, "/", k) {
      SlashAt(s, k);
    }
    var found := Find(s, "/");
  }

  /** A name, a slash and the rest: the first slash is that one. */
  lemma FirstSlash(name: string, rest: string)
    requires '/' !in name
    ensures Find(name + "/" + rest, "/") == |name|
    ensures (name + "/" + rest)[..|name|] == name && (name + "/" + rest)[|name| + 1..] == rest
  {
    hide OccursAt;
    var s := name + "/" + rest;
    forall i: nat ensures OccursAt(s, "/", i) <==> i < |s| && s[i] == '/' {
      SlashAt(s, i);
    }
    forall i | 0 <= i < |name| ensures s[i] != '/' {
      assert s[i] == name[i] && name[i] in name;
    }
    assert OccursAt(s, "/", |name|);
    var found := Find(s, "/");
  }

  lemma WalkName(tree: Tree, at: seq<string>, name: string)
    requires '/' !in name
    ensures Walk(tree, at, name) == FileIn(tree, at, name)
  {
    hide FileIn, Find;
    NoSlash(name);
  }

  lemma WalkStep(tree: Tree, at: seq<string>, name: string, rest: string)
    requires '/' !in name && tree.directories(Enter(at, name))
    ensures Walk(tree, at, name + "/" + rest) == Walk(tree, Enter(at, name), rest)
  {
    hide FileIn, Find, Enter;
    FirstSlash(name, rest);
  }

  /** A file system of this kind meets what the registry asks of one. */
  lemma PosixNamesStay(tree: Tree, hasClient: bool, others: map<seq<string>, string>)
    ensures NamesStay(Setup(hasClient, s => LocateIn(tree, s), others))
  {
    var c := Setup(hasClient, s => LocateIn(tree, s), others);
    forall s: string | '/' !in s ensures c.locate(s) == StateFile(s) {
      assert s != "" ==> s[0] in s;
      WalkName(tree, tree.root + [STATES], s);
    }
  }

  // ----- the paths of a token file

  predicate IsName(name: string) {
    '/' !in name && name != "" && name != "." && name != ".."
  }

  /** The token directory has proper names, and it and everything above it are directories. */
  ghost predicate Proper(tree: Tree) {
    && (forall i :: 0 <= i < |tree.root| ==> IsName(tree.root[i]))
    && (forall i :: 0 <= i <= |tree.root| ==> tree.directories(tree.root[..i]))
  }

  /** `<names>/<file>`, the names joined by slashes. */
  function PathTo(names: seq<string>, file: string): string {
    if names == [] then file else names[0] + "/" + PathTo(names[1..], file)
  }

  /** Down into the token directory from one of the directories above it. */
  lemma {:induction false} WalkDown(tree: Tree, i: nat, p: string)
    requires Proper(tree) && i <= |tree.root| && '/' !in p
    ensures Walk(tree, tree.root[..i], PathTo(tree.root[i..], p)) == FileIn(tree, tree.root, p)
    decreases |tree.root| - i
  {
    hide Walk, FileIn, PathTo;
    PathToStep(tree.root, i, p);
    if i == |tree.root| {
      Seqs.TakeAll(tree.root);
      WalkName(tree, tree.root, p);
    } else {
      Seqs.TakeSucc(tree.root, i);
      assert IsName(tree.root[i]) && tree.directories(tree.root[..i + 1]);
      WalkStep(tree, tree.root[..i], tree.root[i], PathTo(tree.root[i + 1..], p));
      WalkDown(tree, i + 1, p);
    }
  }

  lemma PathToStep(names: seq<string>, i: nat, p: string)
    requires i <= |names|
    ensures PathTo(names[i..], p) == if i == |names| then p else names[i] + "/" + PathTo(names[i + 1..], p)
  {
    if i < |names| {
      assert names[i..][0] == names[i] && names[i..][1..] == names[i + 1..];
    }
  }

  lemma ProfilesAreNames(p: string)
    requires p in PROFILES
    ensures '/' !in p
  {
  }

  lemma TokenFileIn(tree: Tree, p: string)
    requires p in PROFILES
    ensures FileIn(tree, tree.root, p) == TokenFile(p)
  {
    assert |tree.root + [STATES]| == |tree.root| + 1;
  }

  /** Up one directory, a profile's name is its token file. */
  lemma ParentNamesToken(tree: Tree, p: string)
    requires Proper(tree) && p in PROFILES
    ensures LocateIn(tree, "../" + p) == TokenFile(p)
  {
    hide Walk, FileIn;
    var at := tree.root + [STATES];
    assert at[..|at| - 1] == tree.root == tree.root[..|tree.root|];
    ProfilesAreNames(p);
    TokenFileIn(tree, p);
    WalkStep(tree, at, "..", p);
    WalkName(tree, tree.root, p);
    assert ".." + "/" + p == "../" + p;
  }

  /** So is the absolute path of that file. */
  lemma AbsolutePathNamesToken(tree: Tree, p: string)
    requires Proper(tree) && p in PROFILES
    ensures LocateIn(tree, "/" + PathTo(tree.root, p)) == TokenFile(p)
  {
    hide Walk, FileIn, PathTo;
    var rest := PathTo(tree.root, p);
    assert tree.root[..0] == [] && tree.root[0..] == tree.root;
    assert "" + "/" + rest == "/" + rest;
    assert Enter([], "") == [] && tree.directories(tree.root[..0]);
    WalkStep(tree, [], "", rest);
    ProfilesAreNames(p);
    WalkDown(tree, 0, p);
    TokenFileIn(tree, p);
  }

  /** And so is the path that leaves the token directory and comes back by its name. */
  lemma RoundaboutPathNamesToken(tree: Tree, p: string)
    requires Proper(tree) && tree.root != [] && p in PROFILES
    ensures LocateIn(tree, "../../" + (tree.root[|tree.root| - 1] + "/" + p)) == TokenFile(p)
  {
    hide Walk, FileIn;
    var n := |tree.root| - 1;
    var at, rest := tree.root + [STATES], tree.root[n] + "/" + p;
    assert at[..|at| - 1] == tree.root == tree.root[..|tree.root|];
    assert tree.directories(tree.root[..n]) && IsName(tree.root[n]);
    WalkStep(tree, at, "..", ".." + "/" + rest);
    WalkStep(tree, tree.root, "..", rest);
    assert ".." + "/" + (".." + "/" + rest) == "../../" + rest;
    Seqs.SplitLast(tree.root);
    WalkStep(tree, tree.root[..n], tree.root[n], p);
    ProfilesAreNames(p);
    WalkName(tree, tree.root, p);
    TokenFileIn(tree, p);
  }
}
