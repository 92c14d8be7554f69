/** The abstract namespace: inode-numbered directories and files. */
module Trees {
  import opened Bytes
  import opened Records

  datatype Node =
    | TDir(parent: nat, kids: map<Name, u32>)
    | TFile(size: nat, bytes: seq<byte>)

  type Tree = map<nat, Node>

  const ROOT: nat := 2

  /** Directory `d` names node `c` as `name`. */
  ghost predicate Names(t: Tree, d: nat, name: Name, c: nat) {
    d in t && t[d].TDir? && name in t[d].kids && t[d].kids[name] == c
  }

  ghost predicate Named(t: Tree, c: nat) {
    exists d: nat, name: Name :: Names(t, d, name, c)
  }

  /** The root and everything some directory names; the rest was leaked by a failed write. */
  ghost predicate Attached(t: Tree, c: nat) {
    c == ROOT || Named(t, c)
  }

  ghost predicate IsDir(t: Tree, d: nat) {
    d in t && t[d].TDir?
  }

  /** Follow `..` from `d` for `k` steps. */
  ghost function Up(t: Tree, d: nat, k: nat): nat
    decreases k
  {
    if k == 0 || !IsDir(t, d) then d else Up(t, t[d].parent, k - 1)
  }

  ghost predicate ReachesRoot(t: Tree, d: nat) {
    exists k: nat :: Up(t, d, k) == ROOT
  }

  ghost predicate RootOK(t: Tree) {
    IsDir(t, ROOT) && t[ROOT].parent == ROOT
  }

  /** Every name leads to an existing node, never to the root, and a directory's `..` leads back. */
  ghost predicate LinksOK(t: Tree) {
    forall d: nat, name: Name, c: nat | Names(t, d, name, c) ::
      c in t && c != ROOT && (t[c].TDir? ==> t[c].parent == d)
  }

  ghost predicate NamedOnce(t: Tree) {
    forall d: nat, x: Name, e: nat, y: Name, c: nat | Names(t, d, x, c) && Names(t, e, y, c) :: d == e && x == y
  }

  /** Leaked directories are empty. */
  ghost predicate LeaksEmpty(t: Tree) {
    forall d | IsDir(t, d) && !Attached(t, d) :: t[d].kids == map[]
  }

  ghost predicate AllReachRoot(t: Tree) {
    forall d | IsDir(t, d) && Attached(t, d) :: ReachesRoot(t, d)
  }

  ghost predicate WfTree(t: Tree) {
    RootOK(t) && LinksOK(t) && NamedOnce(t) && LeaksEmpty(t) && AllReachRoot(t)
  }

  // ---------------------------------------------------------------- the two updates

  ghost function Leak(t: Tree, n: nat, node: Node): Tree {
    t[n := node]
  }

  ghost function Attach(t: Tree, p: nat, name: Name, n: u32, node: Node): Tree
    requires IsDir(t, p)
  {
    t[n as nat := node][p := t[p].(kids := t[p].kids[name := n])]
  }

  ghost function Detach(t: Tree, p: nat, name: Name): Tree
    requires IsDir(t, p) && name in t[p].kids
  {
    (t - {t[p].kids[name] as nat})[p := t[p].(kids := t[p].kids - {name})]
  }

  ghost predicate Newborn(node: Node, p: nat) {
    node.TDir? ==> node.parent == p && node.kids == map[]
  }

  // ---------------------------------------------------------------- leaking keeps the shape

  lemma LeakNames(t: Tree, n: nat, node: Node)
    requires n !in t && (node.TDir? ==> node.kids == map[])
    ensures forall d: nat, x: Name, c: nat :: Names(Leak(t, n, node), d, x, c) <==> Names(t, d, x, c)
  {}

  lemma {:induction false} SameUp(t: Tree, u: Tree, d: nat, k: nat)
    requires forall x | x in t :: x in u && u[x].TDir? == t[x].TDir? && (t[x].TDir? ==> u[x].parent == t[x].parent)
    requires d in t && LinksOK(t) && RootOK(t) && NamedOnce(t) && LeaksEmpty(t) && Attached(t, d)
    ensures Up(u, d, k) == Up(t, d, k)
    decreases k
  {
    if k > 0 && IsDir(t, d) {
      ParentAttached(t, d);
      SameUp(t, u, t[d].parent, k - 1);
    }
  }

  /** The parent of an attached directory is an attached directory. */
  lemma ParentAttached(t: Tree, d: nat)
    requires LinksOK(t) && RootOK(t) && LeaksEmpty(t)
    requires IsDir(t, d) && Attached(t, d)
    ensures IsDir(t, t[d].parent) && Attached(t, t[d].parent)
    ensures d != ROOT ==> exists name :: Names(t, t[d].parent, name, d)
  {
    if d != ROOT {
      var e: nat, name: Name :| Names(t, e, name, d);
      assert t[d].parent == e;
      assert name in t[e].kids;
      assert t[e].kids != map[];
    }
  }

  lemma LeakWf(t: Tree, n: nat, node: Node)
    requires WfTree(t) && n !in t && (node.TDir? ==> node.kids == map[])
    requires !Named(t, n)
    ensures WfTree(Leak(t, n, node))
  {
    var u := Leak(t, n, node);
    LeakNames(t, n, node);
    assert forall c :: Named(u, c) <==> Named(t, c);
    forall d | IsDir(u, d) && Attached(u, d) ensures ReachesRoot(u, d) {
      assert d != n && IsDir(t, d) && Attached(t, d);
      var k: nat :| Up(t, d, k) == ROOT;
      SameUp(t, u, d, k);
      assert Up(u, d, k) == ROOT;
    }
  }

  // ---------------------------------------------------------------- attaching keeps the shape

  lemma AttachNames(t: Tree, p: nat, name: Name, n: u32, node: Node)
    requires IsDir(t, p) && (n as nat) !in t && name !in t[p].kids && Newborn(node, p)
    ensures forall d: nat, x: Name, c: nat ::
      Names(Attach(t, p, name, n, node), d, x, c) <==> Names(t, d, x, c) || (d == p && x == name && c == n)
  {}

  lemma NotNamedOutside(t: Tree, n: nat)
    requires LinksOK(t) && n !in t
    ensures !Named(t, n)
  {}

  lemma AttachWf(t: Tree, p: nat, name: Name, n: u32, node: Node)
    requires WfTree(t) && IsDir(t, p) && Attached(t, p)
    requires (n as nat) !in t && name !in t[p].kids && Newborn(node, p)
    ensures WfTree(Attach(t, p, name, n, node))
  {
    var u := Attach(t, p, name, n, node);
    AttachNames(t, p, name, n, node);
    NotNamedOutside(t, n);
    assert Names(u, p, name, n);
    forall c | Attached(t, c) ensures Attached(u, c) {
      if c != ROOT {
        var d: nat, x: Name :| Names(t, d, x, c);
        assert Names(u, d, x, c);
      }
    }
    AttachReach(t, p, name, n, node);
  }

  lemma AttachReach(t: Tree, p: nat, name: Name, n: u32, node: Node)
    requires WfTree(t) && IsDir(t, p) && Attached(t, p)
    requires (n as nat) !in t && name !in t[p].kids && Newborn(node, p)
    ensures AllReachRoot(Attach(t, p, name, n, node))
  {
    var u := Attach(t, p, name, n, node);
    AttachNames(t, p, name, n, node);
    forall d | IsDir(u, d) && Attached(u, d) ensures ReachesRoot(u, d) {
      var e := if d == n as nat then p else d;
      assert IsDir(t, e) && Attached(t, e);
      var k: nat :| Up(t, e, k) == ROOT;
      SameUp(t, u, e, k);
      assert Up(u, e, k) == ROOT;
      if d == n as nat {
        assert Up(u, d, k + 1) == ROOT;
      }
    }
  }

  // ---------------------------------------------------------------- detaching keeps the shape

  /** The node a delete may remove: any file, or a directory without children. */
  ghost predicate Removable(t: Tree, c: nat) {
    c in t && (t[c].TDir? ==> t[c].kids == map[])
  }

  lemma DetachNames(t: Tree, p: nat, name: Name)
    requires WfTree(t) && IsDir(t, p) && name in t[p].kids && Removable(t, t[p].kids[name])
    ensures t[p].kids[name] as nat != p
    ensures forall d: nat, x: Name, c: nat ::
      Names(Detach(t, p, name), d, x, c) <==> Names(t, d, x, c) && !(d == p && x == name)
  {
    assert Names(t, p, name, t[p].kids[name]);
  }

  lemma NotParentOfAny(t: Tree, c: nat, d: nat)
    requires WfTree(t) && Removable(t, c) && c != ROOT
    requires IsDir(t, d) && Attached(t, d)
    ensures t[d].parent != c
  {
    ParentAttached(t, d);
    if d != ROOT {
      var x: Name :| Names(t, t[d].parent, x, d);
      assert x in t[t[d].parent].kids;
    }
  }

  /** Another attached directory keeps its parent, which is attached too and not the node removed. */
  lemma DetachParent(t: Tree, p: nat, name: Name, d: nat)
    requires WfTree(t) && IsDir(t, p) && name in t[p].kids && Removable(t, t[p].kids[name])
    requires IsDir(t, d) && Attached(t, d) && d != t[p].kids[name] as nat
    ensures IsDir(Detach(t, p, name), d) && Detach(t, p, name)[d].parent == t[d].parent
    ensures IsDir(t, t[d].parent) && Attached(t, t[d].parent) && t[d].parent != t[p].kids[name] as nat
  {
    assert Names(t, p, name, t[p].kids[name]);
    ParentAttached(t, d);
    NotParentOfAny(t, t[p].kids[name], d);
    hide Attached, AllReachRoot, NamedOnce, LeaksEmpty;
    DetachNames(t, p, name);
  }

  /** No path upward from another attached directory passes through a childless node. */
  lemma {:induction false} DetachUp(t: Tree, p: nat, name: Name, d: nat, k: nat)
    requires WfTree(t) && IsDir(t, p) && name in t[p].kids && Removable(t, t[p].kids[name])
    requires IsDir(t, d) && Attached(t, d) && d != t[p].kids[name] as nat
    ensures Up(Detach(t, p, name), d, k) == Up(t, d, k)
    decreases k
  {
    hide WfTree, Attached, Removable, Detach;
    if k > 0 {
      DetachParent(t, p, name, d);
      DetachUp(t, p, name, t[d].parent, k - 1);
    }
  }

  lemma StillAttached(t: Tree, p: nat, name: Name, d: nat)
    requires WfTree(t) && IsDir(t, p) && name in t[p].kids && Removable(t, t[p].kids[name])
    requires Attached(t, d) && d != t[p].kids[name] as nat
    ensures Attached(Detach(t, p, name), d)
  {
    if d != ROOT {
      DetachNames(t, p, name);
      var e: nat, x: Name :| Names(t, e, x, d);
      assert Names(Detach(t, p, name), e, x, d);
    }
  }

  lemma DetachWf(t: Tree, p: nat, name: Name)
    requires WfTree(t) && IsDir(t, p) && name in t[p].kids && Removable(t, t[p].kids[name])
    ensures WfTree(Detach(t, p, name))
  {
    hide AllReachRoot;
    var u := Detach(t, p, name);
    DetachNames(t, p, name);
    assert Names(t, p, name, t[p].kids[name]);
    forall d | IsDir(u, d) && !Attached(u, d) ensures u[d].kids == map[] {
      if d != p {
        assert !Attached(t, d) by {
          if Attached(t, d) {
            StillAttached(t, p, name, d);
          }
        }
      } else {
        ParentStaysAttached(t, p, name);
      }
    }
    DetachReach(t, p, name);
  }

  /** A directory with a child is itself attached, before and after. */
  lemma ParentStaysAttached(t: Tree, p: nat, name: Name)
    requires WfTree(t) && IsDir(t, p) && name in t[p].kids && Removable(t, t[p].kids[name])
    ensures Attached(Detach(t, p, name), p)
  {
    DetachNames(t, p, name);
    assert t[p].kids != map[];
    assert Attached(t, p);
    StillAttached(t, p, name, p);
  }

  lemma DetachReach(t: Tree, p: nat, name: Name)
    requires WfTree(t) && IsDir(t, p) && name in t[p].kids && Removable(t, t[p].kids[name])
    ensures AllReachRoot(Detach(t, p, name))
  {
    var u := Detach(t, p, name);
    DetachNames(t, p, name);
    forall d | IsDir(u, d) && Attached(u, d) ensures ReachesRoot(u, d) {
      assert IsDir(t, d) && Attached(t, d);
      var k: nat :| Up(t, d, k) == ROOT;
      DetachUp(t, p, name, d, k);
      assert Up(u, d, k) == ROOT;
    }
  }
}
