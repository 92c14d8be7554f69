/** The type byte of a directory entry and the kind of the object it leads to. */
module Kinds {
  import opened Bytes
  import opened Records
  import opened Directories
  import opened Volumes

  /** The type byte an entry for an object carries: 2 for a directory, 1 for a file. */
  function TypeOf(o: Obj): byte {
    if o.Dir? then 2 else 1
  }

  /** A live record, unless it is one of the dots, leads to an object and tells its kind. */
  predicate Typed(objs: map<nat, Obj>, r: Rec) {
    Live(r) && r.name != DOT && r.name != DOTDOT ==> r.ino as nat in objs && r.ftype == TypeOf(objs[r.ino])
  }

  predicate ChainTyped(objs: map<nat, Obj>, rs: seq<Rec>) {
    forall k | 0 <= k < |rs| :: Typed(objs, rs[k])
  }

  predicate DirTyped(objs: map<nat, Obj>, cs: Chains) {
    forall i | 0 <= i < |cs| :: ChainTyped(objs, cs[i])
  }

  /** Every entry of every directory tells the kind of its object. */
  predicate KindsOK(v: Vol) {
    forall n | n in v.objs && v.objs[n].Dir? :: DirTyped(v.objs, v.objs[n].chains)
  }

  // ---------------------------------------------------------------- changing one directory

  lemma SplitTyped(objs: map<nat, Obj>, rs: seq<Rec>, k: nat, ino: u32, name: Name, ftype: byte)
    requires ChainTyped(objs, rs) && k < |rs| && RecOK(rs[k])
    requires ino as nat in objs && ftype == TypeOf(objs[ino])
    ensures ChainTyped(objs, SplitAt(rs, k, ino, name, ftype))
  {
    assert Typed(objs, rs[k]);
  }

  lemma InsertTyped(objs: map<nat, Obj>, cs: Chains, ino: u32, name: Name, ftype: byte)
    requires DirTyped(objs, cs) && AllTiled(cs) && BlockWithRoom(cs, EntryLen(|name|)) < |cs|
    requires ino as nat in objs && ftype == TypeOf(objs[ino])
    ensures DirTyped(objs, InsertInto(cs, ino, name, ftype))
  {
    hide SplitAt, ChainTyped, EntryLen, RecOK, TypeOf;
    var i := BlockWithRoom(cs, EntryLen(|name|));
    SplitTyped(objs, cs[i], FirstFit(cs[i], EntryLen(|name|)), ino, name, ftype);
  }

  lemma GrownTyped(objs: map<nat, Obj>, cs: Chains, ino: u32, name: Name, ftype: byte)
    requires DirTyped(objs, cs) && ino as nat in objs && ftype == TypeOf(objs[ino])
    ensures DirTyped(objs, cs + [FreshChain(ino, name, ftype)])
  {}

  lemma RemoveTyped(objs: map<nat, Obj>, rs: seq<Rec>, k: nat)
    requires ChainTyped(objs, rs) && k < |rs| && (k > 0 ==> rs[k - 1].len + rs[k].len <= BLOCK_SIZE)
    ensures ChainTyped(objs, RemoveAt(rs, k))
  {
    if k > 0 {
      assert Typed(objs, rs[k - 1]);
    }
  }

  lemma RemoveFromTyped(objs: map<nat, Obj>, cs: Chains, name: Name)
    requires DirTyped(objs, cs) && AllTiled(cs) && BlockWithName(cs, name) < |cs|
    ensures DirTyped(objs, RemoveFrom(cs, name))
  {
    hide RemoveAt, ChainTyped;
    var i := BlockWithName(cs, name);
    RemoveTiled(cs[i], IndexOf(cs[i], name));
    RemoveTyped(objs, cs[i], IndexOf(cs[i], name));
  }

  lemma DotsTyped(objs: map<nat, Obj>, self: u32, parent: u32)
    ensures DirTyped(objs, [DotChain(self, parent)])
  {}

  // ---------------------------------------------------------------- changing the objects

  /** More objects, and the same kinds for the old ones. */
  predicate KeepsKinds(objs: map<nat, Obj>, more: map<nat, Obj>) {
    forall n | n in objs :: n in more && more[n].Dir? == objs[n].Dir?
  }

  lemma StillTyped(objs: map<nat, Obj>, more: map<nat, Obj>, cs: Chains)
    requires DirTyped(objs, cs) && KeepsKinds(objs, more)
    ensures DirTyped(more, cs)
  {
    forall i | 0 <= i < |cs| ensures ChainTyped(more, cs[i]) {
      forall k | 0 <= k < |cs[i]| ensures Typed(more, cs[i][k]) {
        assert ChainTyped(objs, cs[i]) && Typed(objs, cs[i][k]);
      }
    }
  }

  /** No live record of the chains leads to `c`, unless it is one of the dots. */
  predicate Unmentioned(cs: Chains, c: nat) {
    forall i, k | 0 <= i < |cs| && 0 <= k < |cs[i]| && Live(cs[i][k]) && cs[i][k].ino as nat == c ::
      cs[i][k].name == DOT || cs[i][k].name == DOTDOT
  }

  lemma TypedWithout(objs: map<nat, Obj>, cs: Chains, c: nat)
    requires DirTyped(objs, cs) && Unmentioned(cs, c)
    ensures DirTyped(objs - {c}, cs)
  {
    forall i | 0 <= i < |cs| ensures ChainTyped(objs - {c}, cs[i]) {
      forall k | 0 <= k < |cs[i]| ensures Typed(objs - {c}, cs[i][k]) {
        assert ChainTyped(objs, cs[i]) && Typed(objs, cs[i][k]);
      }
    }
  }

  /** A live record answers for its name when no name occurs twice. */
  lemma {:induction false} LiveInKids(rs: seq<Rec>, k: nat)
    requires Distinct(rs) && k < |rs| && Live(rs[k])
    ensures rs[k].name in Kids(rs) && Kids(rs)[rs[k].name] == rs[k].ino
    decreases |rs|
  {
    if k > 0 {
      LiveInKids(rs[1..], k - 1);
    }
  }

  lemma LiveInDir(cs: Chains, i: nat, k: nat)
    requires DistinctNames(cs) && i < |cs| && k < |cs[i]| && Live(cs[i][k])
    ensures cs[i][k].name in DirKids(cs) && DirKids(cs)[cs[i][k].name] == cs[i][k].ino
  {
    hide Kids, Distinct, Flat;
    FlatUpdate(cs, i, cs[i]);
    LiveInKids(Flat(cs), |Flat(cs[..i])| + k);
  }

  // ---------------------------------------------------------------- what a reader learns

  /** What a reader of a directory learns of one name: the number it leads to and the type byte. */
  datatype Item = Item(ino: nat, kind: byte)

  /** The records as a map: each name to its first live record. */
  function Items(rs: seq<Rec>): map<Name, Item> {
    if rs == [] then map[]
    else if Live(rs[0]) then Items(rs[1..])[rs[0].name := Item(rs[0].ino, rs[0].ftype)]
    else Items(rs[1..])
  }

  lemma {:induction false} ItemsAreKids(rs: seq<Rec>)
    ensures Items(rs).Keys == Kids(rs).Keys
    ensures forall x | x in Items(rs) :: Items(rs)[x].ino == Kids(rs)[x]
    decreases |rs|
  {
    if rs != [] {
      ItemsAreKids(rs[1..]);
    }
  }

  lemma {:induction false} ItemIsRecord(rs: seq<Rec>, x: Name) returns (k: nat)
    requires x in Items(rs)
    ensures k < |rs| && Live(rs[k]) && rs[k].name == x && Items(rs)[x] == Item(rs[k].ino, rs[k].ftype)
    decreases |rs|
  {
    if Live(rs[0]) && rs[0].name == x {
      k := 0;
    } else {
      k := ItemIsRecord(rs[1..], x);
      k := k + 1;
    }
  }

  lemma {:induction false} FlatRecord(cs: Chains, j: nat) returns (i: nat, k: nat)
    requires j < |Flat(cs)|
    ensures i < |cs| && k < |cs[i]| && Flat(cs)[j] == cs[i][k]
    decreases |cs|
  {
    if j < |cs[0]| {
      i, k := 0, j;
    } else {
      i, k := FlatRecord(cs[1..], j - |cs[0]|);
      i := i + 1;
    }
  }

  /** The first two records of a chain answer for their names. */
  lemma FirstTwoItems(rs: seq<Rec>)
    requires |rs| >= 2 && Live(rs[0]) && Live(rs[1]) && rs[0].name != rs[1].name
    ensures var items := Items(rs);
      && rs[0].name in items && items[rs[0].name].kind == rs[0].ftype
      && rs[1].name in items && items[rs[1].name].kind == rs[1].ftype
  {
    assert rs[1..][0] == rs[1];
  }

  /** In a directory of any number of its blocks, each name has the kind of what it leads to, and the dots are
      directories. */
  lemma ItemKinds(objs: map<nat, Obj>, cs: Chains, self: u32, parent: u32, x: Name)
    requires DirTyped(objs, cs) && StartsWithDots(cs, self, parent) && self != 0 && parent != 0
    requires x in Items(Flat(cs))
    ensures var item := Items(Flat(cs))[x];
      if x == DOT || x == DOTDOT then item.kind == 2
      else item.ino in objs && item.kind == if objs[item.ino].Dir? then 2 else 1
  {
    if x == DOT || x == DOTDOT {
      assert Flat(cs) == cs[0] + Flat(cs[1..]);
      hide Flat;
      FirstTwoItems(Flat(cs));
    } else {
      hide Flat, Items;
      var j := ItemIsRecord(Flat(cs), x);
      var i, k := FlatRecord(cs, j);
      assert ChainTyped(objs, cs[i]) && Typed(objs, cs[i][k]);
    }
  }

  lemma TypedPrefix(objs: map<nat, Obj>, cs: Chains, k: nat)
    requires DirTyped(objs, cs) && k <= |cs|
    ensures DirTyped(objs, cs[..k])
  {
    hide ChainTyped;
  }

  lemma NoItems(cs: Chains)
    ensures Items(Flat(cs[..0])) == map[]
  {}
}
