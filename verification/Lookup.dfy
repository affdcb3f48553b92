/**
 * Path lookup with symbolic links and mounts (fs/vfs.c, fs/cache_node.c), after section 4.13 of the
 * POSIX.1-2017 Base Definitions.
 */
module Lookup {
  import opened Errors
  import opened Lists
  import opened Paths

  /** VFS_LOOKUP_MAX_RECURSION_LEVEL */
  const MAX_LEVEL := 16

  datatype Kind = Directory | Symlink | Other

  /**
   * A cache node. `top` is the root of the file system mounted over it, or the node itself; `children` are those
   * in the cache and those its file system can fetch; `target` is what the file system reads from a link.
   */
  datatype Node = Node(kind: Kind, parent: Option<nat>, top: nat, children: map<Text, nat>, target: Option<Text>)

  type Vfs = map<nat, Node>

  predicate Linked(fs: Vfs, n: nat) {
    && n in fs && fs[n].top in fs && (fs[n].parent.Some? ==> fs[n].parent.value in fs)
    && (forall c :: c in fs[n].children ==> fs[n].children[c] in fs)
    && (fs[n].target.Some? ==> |fs[n].target.value| <= MAX_LEN)
  }

  /** No pointer dangles. */
  predicate Wf(fs: Vfs) {
    forall n :: n in fs ==> Linked(fs, n)
  }

  datatype Result = Found(node: nat) | Failed(error: Errno)

  // Reference: recursion over lists of components

  /** `vfs_cache_node_lookup_child`, then `lookup_read_and_cache_inode` */
  function Child(fs: Vfs, n: nat, name: Text): Option<nat>
    requires n in fs
  {
    if name == "." then Some(n)
    else if name == ".." && fs[n].parent.Some? then fs[n].parent
    else if name in fs[n].children then Some(fs[n].children[name])
    else None
  }

  /** One step down from a node that is no link: into what is mounted there, then to the child. */
  function Enter(fs: Vfs, n: nat, name: Text): (r: Result)
    requires Wf(fs) && n in fs
    ensures r.Found? ==> r.node in fs
  {
    if fs[n].kind != Directory then Failed(ENOTDIR)
    else
      assert Linked(fs, n);
      assert Linked(fs, fs[n].top);
      var next := Child(fs, fs[n].top, name);
      if next.None? then Failed(ENOENT) else Found(next.value)
  }

  function Left(level: nat): nat {
    if level < MAX_LEVEL then MAX_LEVEL - level else 0
  }

  /** A root or a starting node, if there is one. */
  predicate Known(fs: Vfs, n: Option<nat>) {
    n.Some? ==> n.value in fs
  }

  /** The components of a path, walked from `cur`. */
  function Walk(fs: Vfs, cs: seq<Text>, cur: nat, root: Option<nat>, level: nat): (r: Result)
    requires Wf(fs) && cur in fs && Known(fs, root) && level < MAX_LEVEL
    ensures r.Found? ==> r.node in fs
    decreases Left(level), 1, |cs|
  {
    if cs == [] then Found(cur)
    else
      var here := if fs[cur].kind == Symlink then Follow(fs, cur, root, level) else Found(cur);
      if here.Failed? then here
      else
        var next := Enter(fs, here.node, cs[0]);
        if next.Failed? then next else Walk(fs, cs[1..], next.node, root, level)
  }

  /** The target of a link, and the node it is looked up from. */
  function Target(fs: Vfs, link: nat, root: Option<nat>): (r: (Text, Option<nat>))
    requires Wf(fs) && link in fs && fs[link].target.Some? && Known(fs, root)
    ensures Known(fs, r.1) && |r.0| <= MAX_LEN
  {
    assert Linked(fs, link);
    (fs[link].target.value, if Absolute(fs[link].target.value) then root else fs[link].parent)
  }

  /** `readlink` */
  function Follow(fs: Vfs, link: nat, root: Option<nat>, level: nat): (r: Result)
    requires Wf(fs) && link in fs && Known(fs, root) && level < MAX_LEVEL
    ensures r.Found? ==> r.node in fs
    decreases Left(level), 0
  {
    if fs[link].kind != Symlink then Failed(EINVAL)
    else if fs[link].target.None? then Failed(EIO)
    else
      var (path, start) := Target(fs, link, root);
      Resolve(fs, Components(path), root, start, level + 1)
  }

  /** `lookup_path` and `lookup`, for the components of a path that starts at `start`. */
  function Resolve(fs: Vfs, cs: seq<Text>, root: Option<nat>, start: Option<nat>, level: nat): (r: Result)
    requires Wf(fs) && Known(fs, root) && Known(fs, start)
    ensures r.Found? ==> r.node in fs
    decreases Left(level), 2
  {
    if level >= MAX_LEVEL then Failed(ELOOP)
    else if start.None? || root.None? then Failed(EINVAL)
    else
      var r := Walk(fs, cs, Top(fs, start.value), root, level);
      if r.Failed? then Failed(ENOENT)
      else if fs[r.node].kind == Symlink then Follow(fs, r.node, root, level)
      else r
  }

  /** `vfs_cache_node_resolve_mounted_fs` */
  function Top(fs: Vfs, n: nat): (r: nat)
    requires Wf(fs) && n in fs
    ensures r in fs
  {
    assert Linked(fs, n);
    fs[n].top
  }

  // Properties of the reference

  /** A successful lookup never ends at a symbolic link. */
  lemma {:induction false} NeverALink(fs: Vfs, cs: seq<Text>, root: Option<nat>, start: Option<nat>, level: nat)
    requires Wf(fs) && Known(fs, root) && Known(fs, start)
    ensures var r := Resolve(fs, cs, root, start, level); r.Found? ==> fs[r.node].kind != Symlink
    decreases Left(level)
  {
    hide Wf, Components, Target, Enter;
    var r := Resolve(fs, cs, root, start, level);
    if r.Found? {
      var w := Walk(fs, cs, Top(fs, start.value), root, level);
      if fs[w.node].kind == Symlink {
        assert r == Follow(fs, w.node, root, level);
        var (path, from) := Target(fs, w.node, root);
        NeverALink(fs, Components(path), root, from, level + 1);
      }
    }
  }

  /** More levels left never change a successful lookup. */
  lemma {:induction false} WalkMonotone(fs: Vfs, cs: seq<Text>, cur: nat, root: Option<nat>, level: nat, lower: nat)
    requires Wf(fs) && cur in fs && Known(fs, root) && lower <= level < MAX_LEVEL
    requires Walk(fs, cs, cur, root, level).Found?
    ensures Walk(fs, cs, cur, root, lower) == Walk(fs, cs, cur, root, level)
    decreases Left(level), 1, |cs|
  {
    hide Wf, Follow, Enter;
    if cs != [] {
      if fs[cur].kind == Symlink {
        FollowMonotone(fs, cur, root, level, lower);
      }
      var here := if fs[cur].kind == Symlink then Follow(fs, cur, root, level) else Found(cur);
      WalkMonotone(fs, cs[1..], Enter(fs, here.node, cs[0]).node, root, level, lower);
    }
  }

  lemma {:induction false} FollowMonotone(fs: Vfs, link: nat, root: Option<nat>, level: nat, lower: nat)
    requires Wf(fs) && link in fs && Known(fs, root) && lower <= level < MAX_LEVEL
    requires Follow(fs, link, root, level).Found?
    ensures Follow(fs, link, root, lower) == Follow(fs, link, root, level)
    decreases Left(level), 0
  {
    hide Wf, Components, Target, Resolve;
    var (path, start) := Target(fs, link, root);
    ResolveMonotone(fs, Components(path), root, start, level + 1, lower + 1);
  }

  lemma {:induction false} ResolveMonotone(fs: Vfs, cs: seq<Text>, root: Option<nat>, start: Option<nat>, level: nat,
                                           lower: nat)
    requires Wf(fs) && Known(fs, root) && Known(fs, start) && lower <= level
    requires Resolve(fs, cs, root, start, level).Found?
    ensures Resolve(fs, cs, root, start, lower) == Resolve(fs, cs, root, start, level)
    decreases Left(level), 2
  {
    hide Wf, Walk, Follow, Top;
    var w := Walk(fs, cs, Top(fs, start.value), root, level);
    WalkMonotone(fs, cs, Top(fs, start.value), root, level, lower);
    if fs[w.node].kind == Symlink {
      FollowMonotone(fs, w.node, root, level, lower);
    }
  }

  /** In directory `d`, `name` is an ordinary name of node `n`. */
  ghost predicate Names(fs: Vfs, d: nat, name: Text, n: nat) {
    && d in fs && fs[d].kind == Directory && fs[d].top == d && n in fs
    && name != [] && NoSlash(name) && name != "." && name != ".." && name in fs[d].children && fs[d].children[name] == n
  }

  /** Link `a` of directory `d` leads to its neighbour `b`, called `name`. */
  ghost predicate LeadsTo(fs: Vfs, d: nat, a: nat, name: Text, b: nat) {
    Names(fs, d, name, b) && a in fs && fs[a].kind == Symlink && fs[a].parent == Some(d) && fs[a].target == Some(name)
  }

  lemma OneName(fs: Vfs, d: nat, a: nat, name: Text, b: nat, root: nat, level: nat)
    requires Wf(fs) && LeadsTo(fs, d, a, name, b) && root in fs && level < MAX_LEVEL
    ensures Follow(fs, a, Some(root), level) ==
            if level + 1 >= MAX_LEVEL then Failed(ELOOP)
            else if fs[b].kind == Symlink then Follow(fs, b, Some(root), level + 1)
            else Found(b)
  {
    hide Wf, Components, Absolute, Walk;
    OneComponent(name);
    assert Follow(fs, a, Some(root), level) == Resolve(fs, [name], Some(root), Some(d), level + 1);
    if level + 1 < MAX_LEVEL {
      WalkOne(fs, d, name, b, Some(root), level + 1);
    }
  }

  lemma OneComponent(name: Text)
    requires name != [] && NoSlash(name)
    ensures Components(name) == [name] && !Absolute(name)
  {
    Collect(name, [], []);
    assert name + [] == name && [] + name == name;
  }

  lemma WalkOne(fs: Vfs, d: nat, name: Text, b: nat, root: Option<nat>, level: nat)
    requires Wf(fs) && Names(fs, d, name, b) && Known(fs, root) && level < MAX_LEVEL
    ensures Walk(fs, [name], d, root, level) == Found(b)
  {
    hide Wf, Follow;
    assert Enter(fs, d, name) == Found(b);
    assert [name][1..] == [] && Walk(fs, [], b, root, level) == Found(b);
  }

  /** A chain of `k` links is followed to its end if and only if the levels suffice. */
  lemma {:induction false} ChainLimit(fs: Vfs, d: nat, nodes: seq<nat>, names: seq<Text>, root: nat, i: nat, level: nat)
    requires Wf(fs) && root in fs && level < MAX_LEVEL && |names| == |nodes| && i + 1 < |nodes|
    requires forall j :: 0 <= j < |nodes| - 1 ==> LeadsTo(fs, d, nodes[j], names[j + 1], nodes[j + 1])
    requires (forall j :: 0 <= j < |nodes| ==> nodes[j] in fs) && fs[nodes[|nodes| - 1]].kind != Symlink
    ensures Follow(fs, nodes[i], Some(root), level) ==
            if level + (|nodes| - 1 - i) < MAX_LEVEL then Found(nodes[|nodes| - 1]) else Failed(ELOOP)
    decreases |nodes| - i
  {
    hide Wf, Follow, Names;
    assert LeadsTo(fs, d, nodes[i], names[i + 1], nodes[i + 1]);
    OneName(fs, d, nodes[i], names[i + 1], nodes[i + 1], root, level);
    assert i + 2 < |nodes| ==> LeadsTo(fs, d, nodes[i + 1], names[i + 2], nodes[i + 2]);
    if level + 1 < MAX_LEVEL && i + 2 < |nodes| {
      ChainLimit(fs, d, nodes, names, root, i + 1, level + 1);
    }
  }

  /** A link to itself is never resolved. */
  lemma {:induction false} SelfLink(fs: Vfs, d: nat, a: nat, name: Text, root: nat, level: nat)
    requires Wf(fs) && LeadsTo(fs, d, a, name, a) && root in fs && level < MAX_LEVEL
    ensures Follow(fs, a, Some(root), level) == Failed(ELOOP)
    decreases Left(level)
  {
    hide Wf, Follow, Names;
    OneName(fs, d, a, name, a, root, level);
    if level + 1 < MAX_LEVEL {
      SelfLink(fs, d, a, name, root, level + 1);
    }
  }

  // Laws of the reference, in terms of the nodes alone

  /** A node at the end of a path: a link is followed. */
  function Ended(fs: Vfs, n: nat, root: Option<nat>, level: nat): Result
    requires Wf(fs) && n in fs && Known(fs, root) && level < MAX_LEVEL
  {
    if fs[n].kind == Symlink then Follow(fs, n, root, level) else Found(n)
  }

  /** What follows the name `name` in a node that is found at the end of a path. */
  ghost predicate Stepped(fs: Vfs, d: nat, name: Text, root: Option<nat>, level: nat, r: Result)
    requires Wf(fs) && d in fs && Known(fs, root) && level < MAX_LEVEL
  {
    assert Linked(fs, d);
    var t := fs[d].top;
    assert Linked(fs, t);
    if fs[d].kind != Directory then r == Failed(ENOENT)
    else if name == "." then r == Ended(fs, t, root, level)
    else if name == ".." && fs[t].parent.Some? then r == Ended(fs, fs[t].parent.value, root, level)
    else if name in fs[t].children then r == Ended(fs, fs[t].children[name], root, level)
    else r == Failed(ENOENT)
  }

  lemma {:induction false} WalkAppend(fs: Vfs, cs: seq<Text>, name: Text, cur: nat, root: Option<nat>, level: nat)
    requires Wf(fs) && cur in fs && Known(fs, root) && level < MAX_LEVEL
    ensures var w, w' := Walk(fs, cs, cur, root, level), Walk(fs, cs + [name], cur, root, level);
            if w.Failed? then w' == w
            else
              var here := Ended(fs, w.node, root, level);
              w' == if here.Failed? then here else Enter(fs, here.node, name)
    decreases |cs|
  {
    hide Wf, Follow, Enter;
    if cs == [] {
      assert cs + [name] == [name] && [name][1..] == [];
    } else {
      assert (cs + [name])[1..] == cs[1..] + [name] && (cs + [name])[0] == cs[0];
      var here := Ended(fs, cur, root, level);
      if here.Found? && Enter(fs, here.node, cs[0]).Found? {
        WalkAppend(fs, cs[1..], name, Enter(fs, here.node, cs[0]).node, root, level);
      }
    }
  }

  /** One more component: where it leads, or that it leads nowhere. */
  lemma ResolveStep(fs: Vfs, cs: seq<Text>, name: Text, root: Option<nat>, start: Option<nat>, level: nat)
    requires Wf(fs) && Known(fs, root) && Known(fs, start)
    ensures var r, r' := Resolve(fs, cs, root, start, level), Resolve(fs, cs + [name], root, start, level);
            && (r.Failed? ==> r'.Failed?)
            && (r.Found? ==> level < MAX_LEVEL && Stepped(fs, r.node, name, root, level, r'))
  {
    hide Wf, Walk, Follow;
    if level < MAX_LEVEL && start.Some? && root.Some? {
      WalkAppend(fs, cs, name, Top(fs, start.value), root, level);
    }
  }

  /** What a lookup of the text `path` from the directory `cwd` comes to. */
  function LookedUp(fs: Vfs, path: Text, root: Option<nat>, cwd: Option<nat>, level: nat): Result
    requires Wf(fs) && Known(fs, root) && Known(fs, cwd)
  {
    Resolve(fs, Components(path), root, if Absolute(path) then root else cwd, level)
  }

  lemma LinkedAt(fs: Vfs, n: nat)
    requires Wf(fs) && n in fs
    ensures Linked(fs, n) && Linked(fs, fs[n].top)
  {
    assert Linked(fs, n);
  }

  lemma ResolveNone(fs: Vfs, root: Option<nat>, start: nat, level: nat)
    requires Wf(fs) && root.Some? && Known(fs, root) && start in fs && level < MAX_LEVEL
    ensures Linked(fs, start) && Resolve(fs, [], root, Some(start), level) == Ended(fs, fs[start].top, root, level)
  {
    hide Wf, Follow;
    LinkedAt(fs, start);
    var t := Top(fs, start);
    assert Walk(fs, [], t, root, level) == Found(t);
  }

  /** A path without components ends where it starts, on top of what is mounted there. */
  lemma StartLaw(fs: Vfs, path: Text, root: nat, cwd: nat, level: nat)
    requires Wf(fs) && root in fs && cwd in fs && level < MAX_LEVEL && Slashes(path)
    ensures Linked(fs, root) && Linked(fs, cwd)
    ensures LookedUp(fs, path, Some(root), Some(cwd), level) ==
            Ended(fs, if path == [] then fs[cwd].top else fs[root].top, Some(root), level)
  {
    assert path + [] == path && Components([]) == [];
    LeadingSlashes(path, []);
    hide Wf, Resolve, Components, Ended;
    ResolveNone(fs, Some(root), root, level);
    ResolveNone(fs, Some(root), cwd, level);
  }

  /** Appending a component to a path takes one step from where the path leads. */
  lemma StepLaw(fs: Vfs, path: Text, name: Text, root: Option<nat>, cwd: Option<nat>, level: nat)
    requires Wf(fs) && Known(fs, root) && Known(fs, cwd) && path != [] && name != [] && NoSlash(name)
    ensures var r := LookedUp(fs, path, root, cwd, level);
            var r' := LookedUp(fs, path + "/" + name, root, cwd, level);
            && (r.Failed? ==> r'.Failed?)
            && (r.Found? ==> level < MAX_LEVEL && Stepped(fs, r.node, name, root, level, r'))
  {
    hide Wf, Resolve, Components, Stepped;
    AppendName(path, name);
    ResolveStep(fs, Components(path), name, root, if Absolute(path) then root else cwd, level);
  }

  /** A relative path of one name takes one step from the directory it starts in. */
  lemma NameLaw(fs: Vfs, name: Text, root: Option<nat>, cwd: nat, level: nat)
    requires Wf(fs) && root.Some? && Known(fs, root) && cwd in fs && level < MAX_LEVEL && name != [] && NoSlash(name)
    ensures Linked(fs, cwd)
    ensures fs[fs[cwd].top].kind != Symlink ==>
              Stepped(fs, fs[cwd].top, name, root, level, LookedUp(fs, name, root, Some(cwd), level))
  {
    hide Wf, Walk, Follow, Components, Stepped, Resolve;
    OneComponent(name);
    ResolveNone(fs, root, cwd, level);
    ResolveStep(fs, [], name, root, Some(cwd), level);
    assert [] + [name] == [name];
  }

  /** A directory with nothing mounted on it is its own ".". */
  lemma DotStays(fs: Vfs, path: Text, root: Option<nat>, cwd: Option<nat>, level: nat, d: nat)
    requires Wf(fs) && Known(fs, root) && Known(fs, cwd) && path != []
    requires LookedUp(fs, path, root, cwd, level) == Found(d) && d in fs && fs[d].kind == Directory && fs[d].top == d
    ensures LookedUp(fs, path + "/.", root, cwd, level) == Found(d)
  {
    hide Wf, Follow, LookedUp;
    StepLaw(fs, path, ".", root, cwd, level);
    assert path + "/" + "." == path + "/.";
  }

  /** An ordinary name leads to the child of that name. */
  lemma NameLeads(fs: Vfs, path: Text, name: Text, root: Option<nat>, cwd: Option<nat>, level: nat, d: nat)
    requires Wf(fs) && Known(fs, root) && Known(fs, cwd) && path != [] && name != [] && NoSlash(name)
    requires LookedUp(fs, path, root, cwd, level) == Found(d) && d in fs && fs[d].kind == Directory && fs[d].top == d
    requires name != "." && name != ".."
    ensures Linked(fs, d) && level < MAX_LEVEL
    ensures LookedUp(fs, path + "/" + name, root, cwd, level) ==
            if name !in fs[d].children then Failed(ENOENT)
            else if fs[fs[d].children[name]].kind == Symlink then Follow(fs, fs[d].children[name], root, level)
            else Found(fs[d].children[name])
  {
    hide Wf, Follow, LookedUp;
    LinkedAt(fs, d);
    StepLaw(fs, path, name, root, cwd, level);
  }

  /** The way down to a child and up again leads back. */
  lemma DownAndUp(fs: Vfs, path: Text, name: Text, root: Option<nat>, cwd: Option<nat>, level: nat, d: nat)
    requires Wf(fs) && Known(fs, root) && Known(fs, cwd) && path != [] && name != [] && NoSlash(name)
    requires LookedUp(fs, path, root, cwd, level) == Found(d) && d in fs && fs[d].kind == Directory && fs[d].top == d
    requires name != "." && name != ".." && name in fs[d].children && Linked(fs, d)
    requires var c := fs[d].children[name]; fs[c].kind == Directory && fs[c].top == c && fs[c].parent == Some(d)
    ensures LookedUp(fs, path + "/" + name + "/..", root, cwd, level) == Found(d)
  {
    hide Wf, Follow, LookedUp;
    NameLeads(fs, path, name, root, cwd, level, d);
    StepLaw(fs, path + "/" + name, "..", root, cwd, level);
    assert path + "/" + name + "/" + ".." == path + "/" + name + "/..";
  }

  /** A link stands for its target, read from the root or from the directory of the link, one level deeper. */
  lemma LinkLaw(fs: Vfs, link: nat, root: Option<nat>, level: nat)
    requires Wf(fs) && link in fs && Known(fs, root) && level < MAX_LEVEL
    requires fs[link].kind == Symlink && fs[link].target.Some?
    ensures Known(fs, fs[link].parent)
    ensures Follow(fs, link, root, level) == LookedUp(fs, fs[link].target.value, root, fs[link].parent, level + 1)
  {
    hide Wf, Walk, Resolve, Components;
    LinkedAt(fs, link);
  }

  /** An absolute path, and a link to one, leads to the same node from everywhere. */
  lemma AbsoluteLaw(fs: Vfs, path: Text, a: nat, b: nat, root: Option<nat>, cwd: Option<nat>, other: Option<nat>,
                    level: nat)
    requires Wf(fs) && Known(fs, root) && Known(fs, cwd) && Known(fs, other) && path != [] && path[0] == '/'
    ensures LookedUp(fs, path, root, cwd, level) == LookedUp(fs, path, root, other, level)
    ensures a in fs && b in fs && fs[a].kind == Symlink && fs[b].kind == Symlink && level < MAX_LEVEL &&
            fs[a].target == Some(path) && fs[b].target == Some(path) ==>
              Follow(fs, a, root, level) == Follow(fs, b, root, level)
  {
    hide Wf, Walk, Resolve, Components, Follow;
    if a in fs && b in fs && fs[a].kind == Symlink && fs[b].kind == Symlink && level < MAX_LEVEL &&
       fs[a].target == Some(path) && fs[b].target == Some(path) {
      LinkLaw(fs, a, root, level);
      LinkLaw(fs, b, root, level);
    }
  }

  // The code: string slices and loops

  /** `do_lookup` */
  method DoLookup(fs: Vfs, component: Component, start: nat, root: Option<nat>, level: nat) returns (r: Result)
    requires Wf(fs) && start in fs && Known(fs, root) && level < MAX_LEVEL && component.Valid()
    modifies component
    ensures r == Walk(fs, old(component.Rest()), start, root, level)
    decreases Left(level), 1
  {
    hide Wf, Follow, Components;
    var current := start;
    while component.size > 0
      invariant component.Valid() && current in fs
      invariant Walk(fs, component.Rest(), current, root, level) == Walk(fs, old(component.Rest()), start, root, level)
      decreases |component.base| - component.offset
    {
      ghost var cs := component.Rest();
      if fs[current].kind == Symlink {
        var target := ReadLink(fs, current, root, level);
        if target.Failed? {
          return target;
        }
        current := target.node;
      }
      if fs[current].kind != Directory {
        return Failed(ENOTDIR);
      }
      var next := Child(fs, Top(fs, current), component.Str());
      if next.None? {
        return Failed(ENOENT);
      }
      component.Next();
      assert cs[1..] == component.Rest();
      current := next.value;
    }
    return Found(current);
  }

  /** `readlink` */
  method ReadLink(fs: Vfs, link: nat, root: Option<nat>, level: nat) returns (r: Result)
    requires Wf(fs) && link in fs && Known(fs, root) && level < MAX_LEVEL
    ensures r == Follow(fs, link, root, level)
    decreases Left(level), 0
  {
    hide Wf, Resolve, Components;
    if fs[link].kind != Symlink {
      return Failed(EINVAL);
    }
    if fs[link].target.None? {
      return Failed(EIO);
    }
    var (target, start) := Target(fs, link, root);
    var path := Path(target, 0, |target|);
    assert path.Str() == target;
    r := LookupPath(fs, path, root, start, level + 1);
  }

  /** The path runs to the end of its base string, but for slashes, or has no component. */
  ghost predicate Runs(p: Path) {
    p.Valid() && (Components(p.Str()) == [] || Slashes(p.base[p.offset + p.size..]))
  }

  /**
   * `lookup_path` and `lookup`. It terminates for every tree of links: each recursion leaves fewer levels, and each
   * turn of the loop fewer characters.
   */
  method LookupPath(fs: Vfs, path: Path, root: Option<nat>, cwd: Option<nat>, level: nat) returns (r: Result)
    requires Wf(fs) && Known(fs, root) && Known(fs, cwd) && path.Valid()
    ensures Runs(path) ==> r == LookedUp(fs, path.Str(), root, cwd, level)
    ensures r.Found? ==> r.node in fs && fs[r.node].kind != Symlink
    decreases Left(level), 2
  {
    hide Wf, Walk, Follow, Components, Slashes;
    var start := if Absolute(path.Str()) then root else cwd;
    if level >= MAX_LEVEL {
      return Failed(ELOOP);
    }
    if start.None? || root.None? {
      return Failed(EINVAL);
    }
    var component := new Component.First(path);
    ghost var cs := component.Rest();
    NeverALink(fs, cs, root, start, level);
    r := DoLookup(fs, component, Top(fs, start.value), root, level);
    if r.Failed? {
      return Failed(ENOENT);
    }
    if fs[r.node].kind == Symlink {
      r := ReadLink(fs, r.node, root, level);
    }
  }
}
