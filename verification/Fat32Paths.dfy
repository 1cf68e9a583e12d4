/** Over every run from a fresh volume the file system is a tree: each object has exactly one path. */
module Fat32Paths {
  import opened Fat32Layout
  import opened Fat32Name
  import opened Fat32Abs
  import opened Fat32Create
  import opened Fat32Remove
  import opened Fat32Write
  import opened Fat32Run

  type Paths = map<nat, seq<Name>>

  /** The object is an entry of the folder one name up. */
  ghost predicate Hangs(m: map<nat, Obj>, at: Paths, h: nat, d: nat)
  {
    && d in m && d in at && m[d].Folder? && h in at && at[h] != []
    && var n := at[h][|at[h]| - 1];
       n in m[d].entries && m[d].entries[n] == h && at[h] == at[d] + [n]
  }

  ghost predicate EntryFits(m: map<nat, Obj>, at: Paths, d: nat, n: Name)
  {
    && d in m && m[d].Folder? && n in m[d].entries && d in at
    && var h := m[d].entries[n];
       h in m && h in at && at[h] == at[d] + [n]
  }

  /** `at` gives every object its path. */
  ghost predicate TreeAt(m: map<nat, Obj>, root: nat, at: Paths)
  {
    && root in m && at.Keys == m.Keys && at[root] == []
    && (forall d, n {:trigger EntryFits(m, at, d, n)} ::
          d in m && m[d].Folder? && n in m[d].entries ==> EntryFits(m, at, d, n))
    && forall h {:trigger HasParent(m, at, h)} :: h in m && h != root ==> HasParent(m, at, h)
  }

  ghost predicate HasParent(m: map<nat, Obj>, at: Paths, h: nat)
  {
    exists d :: Hangs(m, at, h, d)
  }

  lemma {:induction false} FollowMore(m: map<nat, Obj>, h: nat, p: seq<Name>, n: Name)
    ensures Follow(m, h, p + [n]) ==
            (var d := Follow(m, h, p);
             if d.Some? && d.value in m && m[d.value].Folder? && n in m[d.value].entries && m[d.value].entries[n] in m
             then Some(m[d.value].entries[n]) else None)
    decreases p
  {
    if p == [] {
      assert (p + [n])[1..] == [];
    } else {
      assert (p + [n])[1..] == p[1..] + [n] && (p + [n])[0] == p[0];
      if h in m && m[h].Folder? && p[0] in m[h].entries {
        FollowMore(m, m[h].entries[p[0]], p[1..], n);
      }
    }
  }

  /** Every object is reached by its path. */
  lemma {:induction false} Reached(m: map<nat, Obj>, root: nat, at: Paths, h: nat)
    requires TreeAt(m, root, at) && h in m
    ensures Follow(m, root, at[h]) == Some(h)
    decreases |at[h]|
  {
    if h != root {
      assert HasParent(m, at, h);
      var d :| Hangs(m, at, h, d);
      Reached(m, root, at, d);
      FollowMore(m, root, at[d], at[h][|at[h]| - 1]);
    }
  }

  /** And by no other. */
  lemma {:induction false} OnlyPath(m: map<nat, Obj>, root: nat, at: Paths, p: seq<Name>)
    requires TreeAt(m, root, at)
    ensures var r := Follow(m, root, p); r.Some? ==> r.value in m && at[r.value] == p
    decreases |p|
  {
    if p != [] {
      var n := |p| - 1;
      OnlyPath(m, root, at, p[..n]);
      FollowMore(m, root, p[..n], p[n]);
      assert p == p[..n] + [p[n]];
      var d := Follow(m, root, p[..n]);
      if d.Some? && m[d.value].Folder? && p[n] in m[d.value].entries {
        assert EntryFits(m, at, d.value, p[n]);
      }
    }
  }

  lemma SamePathSame(m: map<nat, Obj>, root: nat, at: Paths, a: nat, b: nat)
    requires TreeAt(m, root, at) && a in m && b in m && at[a] == at[b]
    ensures a == b
  {
    Reached(m, root, at, a);
    Reached(m, root, at, b);
  }

  // ---- Steps -------------------------------------------------------------------------------

  lemma MakeTree(m: map<nat, Obj>, root: nat, at: Paths, d: nat, n: Name, c: nat, isDir: bool)
    requires TreeAt(m, root, at) && d in m && m[d].Folder? && n !in m[d].entries && c !in m
    ensures TreeAt(WithNew(m, d, m[d].entries, n, c, isDir), root, at[c := at[d] + [n]])
  {
    hide HasParent, WithNew;
    var m', at' := WithNew(m, d, m[d].entries, n, c, isDir), at[c := at[d] + [n]];
    NewKeys(m, d, n, c, isDir);
    forall e, k | e in m' && m'[e].Folder? && k in m'[e].entries
      ensures EntryFits(m', at', e, k)
    {
      MakeEntry(m, root, at, d, n, c, isDir, e, k);
    }
    forall h | h in m' && h != root
      ensures HasParent(m', at', h)
    {
      MakeParent(m, root, at, d, n, c, isDir, h);
    }
  }

  lemma NewKeys(m: map<nat, Obj>, d: nat, n: Name, c: nat, isDir: bool)
    requires d in m && m[d].Folder?
    ensures WithNew(m, d, m[d].entries, n, c, isDir).Keys == m.Keys + {c}
  {
  }

  lemma MakeEntry(m: map<nat, Obj>, root: nat, at: Paths, d: nat, n: Name, c: nat, isDir: bool, e: nat, k: Name)
    requires TreeAt(m, root, at) && d in m && m[d].Folder? && n !in m[d].entries && c !in m
    requires var m' := WithNew(m, d, m[d].entries, n, c, isDir); e in m' && m'[e].Folder? && k in m'[e].entries
    ensures EntryFits(WithNew(m, d, m[d].entries, n, c, isDir), at[c := at[d] + [n]], e, k)
  {
    hide HasParent;
    if e != c && !(e == d && k == n) {
      assert EntryFits(m, at, e, k);
    }
  }

  lemma MakeParent(m: map<nat, Obj>, root: nat, at: Paths, d: nat, n: Name, c: nat, isDir: bool, h: nat)
    requires TreeAt(m, root, at) && d in m && m[d].Folder? && n !in m[d].entries && c !in m
    requires h in m || h == c
    ensures h != root ==> HasParent(WithNew(m, d, m[d].entries, n, c, isDir), at[c := at[d] + [n]], h)
  {
    hide EntryFits;
    var m', at' := WithNew(m, d, m[d].entries, n, c, isDir), at[c := at[d] + [n]];
    if h == c {
      assert Hangs(m', at', c, d);
    } else if h != root {
      assert HasParent(m, at, h);
      var e :| Hangs(m, at, h, e);
      assert Hangs(m', at', h, e);
    }
  }

  lemma RemoveTree(m: map<nat, Obj>, root: nat, at: Paths, d: nat, n: Name)
    requires TreeAt(m, root, at) && d in m && m[d].Folder? && n in m[d].entries && m[d].entries[n] in m
    requires var o := m[m[d].entries[n]]; o.Folder? ==> o.entries == map[]
    ensures TreeAt(Without(m, d, m[d].entries, n, m[d].entries[n]), root, at - {m[d].entries[n]})
  {
    var h := m[d].entries[n];
    var m', at' := Without(m, d, m[d].entries, n, h), at - {h};
    assert EntryFits(m, at, d, n);
    forall e, k | e in m' && m'[e].Folder? && k in m'[e].entries
      ensures EntryFits(m', at', e, k)
    {
      assert EntryFits(m, at, e, k);
      if m[e].entries[k] == h {
        assert at[e] == (at[e] + [k])[..|at[e]|] && at[d] == (at[d] + [n])[..|at[d]|];
        SamePathSame(m, root, at, e, d);
      }
    }
    forall x | x in m' && x != root
      ensures HasParent(m', at', x)
    {
      assert HasParent(m, at, x);
      var e :| Hangs(m, at, x, e);
      assert Hangs(m', at', x, e);
    }
  }

  lemma StoreTree(m: map<nat, Obj>, root: nat, at: Paths, h: nat, o: Obj)
    requires TreeAt(m, root, at) && h in m && m[h].File? && o.File?
    ensures TreeAt(m[h := o], root, at)
  {
    var m' := m[h := o];
    forall d, n | d in m' && m'[d].Folder? && n in m'[d].entries
      ensures EntryFits(m', at, d, n)
    {
      assert EntryFits(m, at, d, n);
    }
    forall x | x in m' && x != root
      ensures HasParent(m', at, x)
    {
      assert HasParent(m, at, x);
      var d :| Hangs(m, at, x, d);
      assert Hangs(m', at, x, d);
    }
  }

  lemma StepTree(g: Geometry, s: Snap, op: Op, s': Snap, at: Paths) returns (at': Paths)
    requires AbsStep(g, s, op, s') && TreeAt(s.files, g.root, at)
    ensures TreeAt(s'.files, g.root, at')
  {
    hide TreeAt, WithNew, Without, Overwritten, Room, ValidName;
    var m, m' := s.files, s'.files;
    at' := at;
    var folder := FolderAt(m, g.root, op.path);
    if m' != m && folder.Some? {
      var d := folder.value;
      match op {
        case MakeFile(_, n) =>
          var c :| Unknown(s, c) && s' == Made(g, s, d, n, false, c);
          at' := Grown(m, g.root, at, d, n, c, false);
        case MakeDir(_, n) =>
          var c :| Unknown(s, c) && s' == Made(g, s, d, n, true, c);
          at' := Grown(m, g.root, at, d, n, c, true);
        case RemoveFile(_, n) =>
          RemoveTree(m, g.root, at, d, n);
          at' := at - {m[d].entries[n]};
        case RemoveDir(_, n) =>
          RemoveTree(m, g.root, at, d, n);
          at' := at - {m[d].entries[n]};
        case Store(_, n, data, offset) =>
          var h := m[d].entries[n];
          var r :| 0 <= r <= |data| && m' == m[h := File(Recorded32(Overwritten(m[h].bytes, offset, data[..r])))];
          StoreTree(m, g.root, at, h, m'[h]);
      }
    }
  }

  lemma Grown(m: map<nat, Obj>, root: nat, at: Paths, d: nat, n: Name, c: nat, isDir: bool) returns (at': Paths)
    requires TreeAt(m, root, at) && d in m && m[d].Folder? && n !in m[d].entries && c !in m
    ensures TreeAt(WithNew(m, d, m[d].entries, n, c, isDir), root, at')
  {
    MakeTree(m, root, at, d, n, c, isDir);
    at' := at[c := at[d] + [n]];
  }

  // ---- Runs --------------------------------------------------------------------------------

  lemma NewTree(root: nat)
    ensures TreeAt(map[root := Folder(map[])], root, map[root := []])
  {
  }

  lemma {:induction false} RunTree(g: Geometry, ops: seq<Op>, states: seq<Snap>, i: nat) returns (at: Paths)
    requires AbsRun(g, ops, states) && states[0].files == map[g.root := Folder(map[])] && i <= |ops|
    ensures TreeAt(states[i].files, g.root, at)
    decreases i
  {
    hide AbsStep;
    if i == 0 {
      at := map[g.root := []];
      NewTree(g.root);
    } else {
      at := RunTree(g, ops, states, i - 1);
      assert AbsStep(g, states[i - 1], ops[i - 1], states[i]);
      at := StepTree(g, states[i - 1], ops[i - 1], states[i], at);
    }
  }

  /** Some path leads from the root to the object, and no other does. */
  ghost predicate OnePath(m: map<nat, Obj>, root: nat, h: nat)
  {
    exists p :: Follow(m, root, p) == Some(h) && forall q :: Follow(m, root, q) == Some(h) ==> q == p
  }

  /** In every state of every run from a fresh volume each object has exactly one path. */
  lemma Tree(g: Geometry, ops: seq<Op>, states: seq<Snap>, i: nat, h: nat)
    requires AbsRun(g, ops, states) && states[0].files == map[g.root := Folder(map[])] && i <= |ops|
    requires h in states[i].files
    ensures OnePath(states[i].files, g.root, h)
  {
    hide AbsStep, TreeAt, Follow;
    var m := states[i].files;
    var at := RunTree(g, ops, states, i);
    PathsAt(m, g.root, at);
    Reached(m, g.root, at, h);
    forall q | Follow(m, g.root, q) == Some(h)
      ensures q == at[h]
    {
      OnlyPath(m, g.root, at, q);
    }
  }

  lemma PathsAt(m: map<nat, Obj>, root: nat, at: Paths)
    requires TreeAt(m, root, at)
    ensures at.Keys == m.Keys
  {
  }
}
