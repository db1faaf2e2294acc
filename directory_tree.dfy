/** `build_directory_tree`: folding a directory hierarchy into the nested inventory structure. */
module DirectoryTree {
  import opened Wrappers

  /** A file-system entry: a plain file, or a directory with its entries in `iterdir()` order. */
  datatype Node = File(name: string) | Dir(name: string, children: seq<Node>)

  /** The value `build_directory_tree` returns: a list of names, or a dict of subtrees. */
  datatype Tree = Names(names: seq<string>) | Mapping(subtrees: map<string, Tree>)

  /** Within one directory no two entries share a name, at every level. */
  predicate WellFormed(d: Node)
    decreases d
  {
    d.Dir? ==>
      (forall a, b :: a in d.children && b in d.children && a.name == b.name ==> a == b) &&
      (forall c :: c in d.children ==> WellFormed(c))
  }

  /** `[p for p in root.iterdir() if p.is_dir()]`. */
  function Subdirs(cs: seq<Node>): (r: seq<Node>)
    ensures forall c :: c in r <==> c in cs && c.Dir?
    decreases |cs|
  {
    if cs == [] then [] else (if cs[0].Dir? then [cs[0]] else []) + Subdirs(cs[1..])
  }

  function NamesOf(ns: seq<Node>): (r: seq<string>)
    ensures |r| == |ns|
    ensures forall i :: 0 <= i < |ns| ==> r[i] == ns[i].name
  {
    seq(|ns|, i requires 0 <= i < |ns| => ns[i].name)
  }

  /** The names of the immediate subdirectories of `d`. */
  function DirNames(d: Node): set<string>
    requires d.Dir?
  {
    set c | c in d.children && c.Dir? :: c.name
  }

  /** The names at one level of a tree, that is what `x in tree` tests: list elements or dict keys. */
  function Entries(t: Tree): set<string> {
    match t
    case Names(ns) => set n | n in ns
    case Mapping(m) => m.Keys
  }

  /** `build_directory_tree(d)`. Files are ignored; a directory whose subdirectories are all
      leaves collapses to the list of their names. */
  function Build(d: Node): (t: Tree)
    requires d.Dir? && WellFormed(d)
    ensures Entries(t) == DirNames(d)
    ensures t == Names([]) <==> Subdirs(d.children) == []
    decreases d
  {
    var subs := Subdirs(d.children);
    if subs == [] then Names([])
    else
      var tree := map c | c in subs :: c.name := Build(c);
      if forall c :: c in subs ==> Build(c) == Names([]) then Names(NamesOf(subs))
      else Mapping(tree)
  }

  /** The collapse rule: the result is a list exactly when every subdirectory is a leaf, and then
      it lists the subdirectory names in order; otherwise it maps each subdirectory name to that
      subdirectory's own tree. */
  lemma CollapseRule(d: Node)
    requires d.Dir? && WellFormed(d)
    ensures Build(d).Names? <==> forall c :: c in Subdirs(d.children) ==> Subdirs(c.children) == []
    ensures Build(d).Names? ==> Build(d).names == NamesOf(Subdirs(d.children))
    ensures Build(d).Mapping? ==>
      Build(d).subtrees.Keys == DirNames(d) &&
      forall c :: c in Subdirs(d.children) ==> Build(d).subtrees[c.name] == Build(c)
  {
    CollapseShape(d);
    if Build(d).Mapping? {
      CollapseMapping(d);
    }
  }

  lemma CollapseShape(d: Node)
    requires d.Dir? && WellFormed(d)
    ensures Build(d).Names? <==> forall c :: c in Subdirs(d.children) ==> Subdirs(c.children) == []
    ensures Build(d).Names? ==> Build(d).names == NamesOf(Subdirs(d.children))
  {
    var subs := Subdirs(d.children);
    if subs != [] {
      assert subs[0] in subs;
    }
  }

  lemma CollapseMapping(d: Node)
    requires d.Dir? && WellFormed(d) && Build(d).Mapping?
    ensures Build(d).subtrees.Keys == DirNames(d)
    ensures forall c :: c in Subdirs(d.children) ==> Build(d).subtrees[c.name] == Build(c)
  {
    assert Entries(Build(d)) == Build(d).subtrees.Keys;
    CollapseMappingValues(d);
  }

  lemma CollapseMappingValues(d: Node)
    requires d.Dir? && WellFormed(d) && Build(d).Mapping?
    ensures forall c :: c in Subdirs(d.children) ==> c.name in Build(d).subtrees && Build(d).subtrees[c.name] == Build(c)
  {
  }

  /** Plain files never influence the result. */
  lemma FilesIgnored(name: string, cs: seq<Node>)
    requires WellFormed(Dir(name, cs))
    ensures WellFormed(Dir(name, Subdirs(cs)))
    ensures Build(Dir(name, cs)) == Build(Dir(name, Subdirs(cs)))
  {
    var subs := Subdirs(cs);
    assert Subdirs(subs) == subs by { SubdirsIdempotent(cs); }
  }

  lemma {:induction false} SubdirsIdempotent(cs: seq<Node>)
    ensures Subdirs(Subdirs(cs)) == Subdirs(cs)
    decreases |cs|
  {
    if cs != [] {
      SubdirsIdempotent(cs[1..]);
      var head := if cs[0].Dir? then [cs[0]] else [];
      SubdirsConcat(head, Subdirs(cs[1..]));
    }
  }

  lemma {:induction false} SubdirsConcat(a: seq<Node>, b: seq<Node>)
    ensures Subdirs(a + b) == Subdirs(a) + Subdirs(b)
    decreases |a|
  {
    if a == [] {
      assert a + b == b;
    } else {
      assert (a + b)[0] == a[0];
      assert (a + b)[1..] == a[1..] + b;
      SubdirsConcat(a[1..], b);
    }
  }

  lemma AllLeavesFlatten(d: Node)
    requires d.Dir? && WellFormed(d)
    requires forall c :: c in Subdirs(d.children) ==> Subdirs(c.children) == []
    ensures Build(d) == Names(NamesOf(Subdirs(d.children)))
  {
    CollapseRule(d);
  }

  lemma ExampleSubdirs(c1: Node, c2: Node, c3: Node)
    requires c1.Dir? && c2.Dir? && c3.Dir?
    ensures Subdirs([c1, c2, c3]) == [c1, c2, c3]
  {
    assert [c3][1..] == [];
    assert Subdirs([c3]) == [c3];
    assert [c2, c3][1..] == [c3];
    assert Subdirs([c2, c3]) == [c2, c3];
    assert [c1, c2, c3][1..] == [c2, c3];
  }

  /** A folder holding three leaf folders, as `PLAYER/{1,2,3}`, gives the flat list of their names. */
  lemma LeafFoldersGiveFlatList(d: Node, c1: Node, c2: Node, c3: Node)
    requires d.Dir? && d.children == [c1, c2, c3] && WellFormed(d)
    requires c1.Dir? && c2.Dir? && c3.Dir?
    requires Subdirs(c1.children) == [] && Subdirs(c2.children) == [] && Subdirs(c3.children) == []
    ensures Build(d) == Names([c1.name, c2.name, c3.name])
  {
    ThreeLeaves(d, c1, c2, c3);
    AllLeavesFlatten(d);
    NamesOfThree(c1, c2, c3);
  }

  lemma NamesOfThree(c1: Node, c2: Node, c3: Node)
    ensures NamesOf([c1, c2, c3]) == [c1.name, c2.name, c3.name]
  {
  }

  lemma ThreeLeaves(d: Node, c1: Node, c2: Node, c3: Node)
    requires d.Dir? && d.children == [c1, c2, c3]
    requires c1.Dir? && c2.Dir? && c3.Dir?
    requires Subdirs(c1.children) == [] && Subdirs(c2.children) == [] && Subdirs(c3.children) == []
    ensures Subdirs(d.children) == [c1, c2, c3]
    ensures forall c :: c in Subdirs(d.children) ==> Subdirs(c.children) == []
  {
    ExampleSubdirs(c1, c2, c3);
  }

  // ---------------------------------------------------------------- reading the tree back

  /** `t[key]` on the loaded structure: a dict lookup, a KeyError for a missing key, and a
      TypeError for a list, which cannot be indexed by a string. */
  function Child(t: Tree, key: string): Result<Tree, Exception> {
    match t
    case Mapping(m) => if key in m then Success(m[key]) else Failure(Exception(KeyError, key))
    case Names(_) => Failure(Exception(TypeError, "list indices must be integers or slices, not str"))
  }

  /** `t[path[0]][path[1]]...`. */
  function LookupPath(t: Tree, path: seq<string>): Result<Tree, Exception>
    decreases |path|
  {
    if path == [] then Success(t)
    else
      match Child(t, path[0])
      case Success(c) => LookupPath(c, path[1..])
      case Failure(e) => Failure(e)
  }

  /** The subdirectory of `d` called `name`, if any. */
  function FindDir(cs: seq<Node>, name: string): (r: Option<Node>)
    ensures r.Some? ==> r.value in cs && r.value.Dir? && r.value.name == name
    ensures r.None? ==> forall c :: c in cs && c.Dir? ==> c.name != name
    decreases |cs|
  {
    if cs == [] then None
    else if cs[0].Dir? && cs[0].name == name then Some(cs[0])
    else FindDir(cs[1..], name)
  }

  /** The directory reached from `d` by following `path` through subdirectory names. */
  function FolderAt(d: Node, path: seq<string>): (r: Option<Node>)
    requires d.Dir? && WellFormed(d)
    ensures r.Some? ==> r.value.Dir? && WellFormed(r.value)
    decreases |path|
  {
    if path == [] then Some(d)
    else
      match FindDir(d.children, path[0])
      case Some(c) => FolderAt(c, path[1..])
      case None => None
  }

  /** Whatever a successful lookup in the built tree finds is the tree of the folder at that path,
      so its entries are exactly that folder's subdirectory names. */
  lemma {:induction false} LookupFindsFolder(d: Node, path: seq<string>)
    requires d.Dir? && WellFormed(d)
    requires LookupPath(Build(d), path).Success?
    ensures FolderAt(d, path).Some?
    ensures LookupPath(Build(d), path).value == Build(FolderAt(d, path).value)
    ensures Entries(LookupPath(Build(d), path).value) == DirNames(FolderAt(d, path).value)
    decreases |path|
  {
    if path != [] {
      var t := Build(d);
      CollapseRule(d);
      assert t.Mapping?;
      assert path[0] in DirNames(d);
      var found := FindDir(d.children, path[0]);
      assert found.Some?;
      var c := found.value;
      assert c in Subdirs(d.children);
      assert Child(t, path[0]) == Success(Build(c));
      LookupFindsFolder(c, path[1..]);
    }
  }

  /** Indexing by a string one level below a folder whose tree collapsed to a list raises
      `TypeError`, whatever happens on the way there. */
  lemma {:induction false} LookupBelowListFails(d: Node, path: seq<string>, key: string)
    requires d.Dir? && WellFormed(d)
    requires FolderAt(d, path).Some? && Build(FolderAt(d, path).value).Names?
    ensures LookupPath(Build(d), path + [key]).Failure?
    ensures LookupPath(Build(d), path + [key]).error.kind == TypeError
    decreases |path|
  {
    var full := path + [key];
    if path == [] {
      assert full == [key];
    } else {
      assert full[0] == path[0] && full[1..] == path[1..] + [key];
      if Build(d).Mapping? {
        var c := FindDir(d.children, path[0]).value;
        assert c in Subdirs(d.children);
        CollapseMappingValues(d);
        assert Child(Build(d), path[0]) == Success(Build(c));
        LookupBelowListFails(c, path[1..], key);
      }
    }
  }

  /** A lookup `t[a][b]` that succeeds has a successful `t[a]` on the way. */
  lemma {:induction false} LookupPrefix(t: Tree, path: seq<string>, n: nat)
    requires n <= |path|
    requires LookupPath(t, path).Success?
    ensures LookupPath(t, path[..n]).Success?
    ensures LookupPath(LookupPath(t, path[..n]).value, path[n..]) == LookupPath(t, path)
    decreases n
  {
    if n > 0 {
      var c := Child(t, path[0]).value;
      assert path[..n][1..] == path[1..][..n - 1];
      assert path[n..] == path[1..][n - 1..];
      LookupPrefix(c, path[1..], n - 1);
    }
  }
}
