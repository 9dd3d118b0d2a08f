/**
 Truncating the log: the state written out as records, views first and parents
 before children, and what recovery makes of those records.

 A new child goes in front of its siblings, so the tree comes back with the
 children of every view in the opposite order.
 */
module Truncation {
  import opened Values
  import opened ViewOrder
  import opened Transactions
  import opened Views
  import opened ViewTree

  datatype StateRec = CreateView(parent: string, name: string, spec: Spec) | AddRec(key: string, ad: Ad)

  // ---------- writing ----------

  /** `LogViews` below the root */
  function LogView(v: View, parent: string): seq<StateRec>
    decreases v, 1
  {
    [CreateView(parent, v.name, v.spec)] + LogSubs(v.subs, v.name)
  }

  function LogSubs(vs: seq<View>, parent: string): seq<StateRec>
    decreases vs, 0
  {
    if vs == [] then [] else LogView(vs[0], parent) + LogSubs(vs[1..], parent)
  }

  function LogAds(t: Table, keys: seq<string>): seq<StateRec>
    requires forall key :: key in keys ==> key in t
  {
    if keys == [] then [] else [AddRec(keys[0], t[keys[0]])] + LogAds(t, keys[1..])
  }

  ghost predicate Enumerates(keys: seq<string>, t: Table) {
    (forall key :: key in keys <==> key in t) && forall i, j :: 0 <= i < j < |keys| ==> keys[i] != keys[j]
  }

  /** `LogState`; `keys` is the order in which the table yields its ads. */
  function LogState(s: Store, keys: seq<string>): seq<StateRec>
    requires Enumerates(keys, s.table)
  {
    LogSubs(s.root.subs, s.root.name) + LogAds(s.table, keys)
  }

  // ---------- reading ----------

  predicate InTree(v: View, name: string)
    decreases v
  {
    v.name == name || exists i :: 0 <= i < |v.subs| && InTree(v.subs[i], name)
  }

  /** A view needs a registered parent and a name of its own. */
  function ReplayOne(s: Option<Store>, rec: StateRec): Option<Store> {
    if s.None? then None
    else match rec
      case CreateView(parent, name, spec) =>
        if InTree(s.value.root, parent) && !InTree(s.value.root, name) &&
          Allowed(s.value, NewView(parent, name, spec)) then
          Some(Called(s.value, NewView(parent, name, spec)))
        else None
      case AddRec(key, ad) => Some(Called(s.value, Put(key, ad)))
  }

  function Replay(s: Option<Store>, recs: seq<StateRec>): Option<Store>
    decreases |recs|
  {
    if recs == [] then s else Replay(ReplayOne(s, recs[0]), recs[1..])
  }

  lemma {:induction false} ReplayJoin(s: Option<Store>, a: seq<StateRec>, b: seq<StateRec>)
    ensures Replay(s, a + b) == Replay(Replay(s, a), b)
    decreases |a|
  {
    hide ReplayOne;
    if a == [] {
      assert a + b == b;
    } else {
      ReplayJoin(ReplayOne(s, a[0]), a[1..], b);
      assert (a + b)[1..] == a[1..] + b && (a + b)[0] == a[0];
    }
  }

  // ---------- trees without members ----------

  predicate IsBare(v: View)
    decreases v
  {
    v.list == [] && v.index == map[] && forall i :: 0 <= i < |v.subs| ==> IsBare(v.subs[i])
  }

  /** The tree without its members, the children of every view reversed. */
  function Mirror(v: View): View
    decreases v, 1
  {
    View(v.name, v.spec, [], map[], MirrorSubs(v.subs))
  }

  function MirrorSubs(vs: seq<View>): (ws: seq<View>)
    ensures |ws| == |vs|
    ensures forall i :: 0 <= i < |vs| ==> ws[|vs| - 1 - i] == Mirror(vs[i])
    decreases vs, 0
  {
    if vs == [] then [] else MirrorSubs(vs[1..]) + [Mirror(vs[0])]
  }

  lemma {:induction false} MirrorBare(v: View)
    ensures IsBare(Mirror(v))
    decreases v
  {
    var w := Mirror(v);
    forall i | 0 <= i < |w.subs| ensures IsBare(w.subs[i]) {
      assert w.subs[i] == Mirror(v.subs[|v.subs| - 1 - i]);
      MirrorBare(v.subs[|v.subs| - 1 - i]);
    }
  }

  lemma {:induction false} MirrorNames(v: View, name: string)
    ensures InTree(Mirror(v), name) <==> InTree(v, name)
    decreases v
  {
    var w, n := Mirror(v), |v.subs|;
    forall i | 0 <= i < n ensures InTree(w.subs[n - 1 - i], name) <==> InTree(v.subs[i], name) {
      MirrorNames(v.subs[i], name);
    }
    if i :| 0 <= i < n && InTree(w.subs[i], name) { assert InTree(v.subs[n - 1 - i], name); }
    if i :| 0 <= i < n && InTree(v.subs[i], name) { assert InTree(w.subs[n - 1 - i], name); }
  }

  lemma {:induction false} BareLists(v: View, t: Table)
    requires IsBare(v)
    ensures ListsIn(v, t)
    decreases v
  {
    forall i | 0 <= i < |v.subs| ensures ListsIn(v.subs[i], t) { BareLists(v.subs[i], t); }
  }

  lemma {:induction false} BareTreeExact(v: View)
    requires IsBare(v)
    ensures Exact(v, map[]) && Tidy(v)
    decreases v
  {
    hide SameRank;
    forall i | 0 <= i < |v.subs| ensures Exact(v.subs[i], map[]) && Tidy(v.subs[i]) { BareTreeExact(v.subs[i]); }
    assert Visible(v, map[]) == map[];
    assert Holds(v, map[]) && Agrees(v.list, v.index);
    ChildrenExact(v, map[]);
  }

  function Graft(v: View, parent: string, w: View): View
    requires IsBare(v)
  {
    BareLists(v, map[]);
    AddView(v, parent, w, map[])
  }

  lemma {:induction false} GraftUnfold(v: View, parent: string, w: View)
    requires IsBare(v)
    ensures v.name == parent ==> Graft(v, parent, w) == View(v.name, v.spec, [], map[], [w] + v.subs)
    ensures v.name != parent ==>
              Graft(v, parent, w) == View(v.name, v.spec, [], map[],
                seq(|v.subs|, i requires 0 <= i < |v.subs| => Graft(v.subs[i], parent, w)))
  {
    BareLists(v, map[]);
    if v.name != parent {
      forall i | 0 <= i < |v.subs| ensures Graft(v.subs[i], parent, w) == AddView(v.subs[i], parent, w, map[]) {
        BareLists(v.subs[i], map[]);
      }
      assert Graft(v, parent, w).subs == seq(|v.subs|, i requires 0 <= i < |v.subs| => Graft(v.subs[i], parent, w));
    }
  }

  lemma {:induction false} GraftBare(v: View, parent: string, w: View)
    requires IsBare(v) && IsBare(w)
    ensures IsBare(Graft(v, parent, w))
    decreases v
  {
    GraftUnfold(v, parent, w);
    hide Graft;
    if v.name != parent {
      forall i | 0 <= i < |v.subs| ensures IsBare(Graft(v.subs[i], parent, w)) { GraftBare(v.subs[i], parent, w); }
    }
  }

  lemma {:induction false} GraftNames(v: View, parent: string, w: View, name: string)
    requires IsBare(v)
    ensures InTree(Graft(v, parent, w), name) <==> InTree(v, name) || (InTree(v, parent) && InTree(w, name))
    decreases v
  {
    GraftUnfold(v, parent, w);
    hide Graft;
    var g := Graft(v, parent, w);
    if v.name == parent {
      assert forall i :: 0 <= i < |v.subs| ==> g.subs[i + 1] == v.subs[i];
      assert g.subs[0] == w;
    } else {
      forall i | 0 <= i < |v.subs|
        ensures InTree(g.subs[i], name) <==> InTree(v.subs[i], name) || (InTree(v.subs[i], parent) && InTree(w, name))
      {
        GraftNames(v.subs[i], parent, w, name);
      }
    }
  }

  lemma {:induction false} GraftAbsent(v: View, parent: string, w: View)
    requires IsBare(v) && !InTree(v, parent)
    ensures Graft(v, parent, w) == v
    decreases v
  {
    GraftUnfold(v, parent, w);
    hide Graft;
    forall i | 0 <= i < |v.subs| ensures Graft(v.subs[i], parent, w) == v.subs[i] { GraftAbsent(v.subs[i], parent, w); }
    assert Graft(v, parent, w).subs == v.subs;
  }

  function WithChild(w: View, x: View): View {
    View(w.name, w.spec, w.list, w.index, [x] + w.subs)
  }

  /** A child grafted into a view that was itself just grafted. */
  lemma {:induction false} GraftInside(v: View, parent: string, w: View, x: View)
    requires IsBare(v) && IsBare(w) && !InTree(v, w.name) && IsBare(Graft(v, parent, w))
    ensures Graft(Graft(v, parent, w), w.name, x) == Graft(v, parent, WithChild(w, x))
    decreases v
  {
    hide Graft;
    GraftUnfold(v, parent, w);
    GraftUnfold(v, parent, WithChild(w, x));
    var g := Graft(v, parent, w);
    GraftUnfold(g, w.name, x);
    if v.name == parent {
      GraftUnfold(w, w.name, x);
      forall i | 0 <= i < |v.subs| ensures Graft(v.subs[i], w.name, x) == v.subs[i] {
        GraftAbsent(v.subs[i], w.name, x);
      }
      assert g.subs[0] == w && forall i :: 0 <= i < |v.subs| ==> g.subs[i + 1] == v.subs[i];
      assert Graft(g, w.name, x).subs == [WithChild(w, x)] + v.subs;
    } else {
      forall i | 0 <= i < |v.subs|
        ensures IsBare(g.subs[i]) && Graft(g.subs[i], w.name, x) == Graft(v.subs[i], parent, WithChild(w, x))
      {
        GraftBare(v.subs[i], parent, w);
        GraftInside(v.subs[i], parent, w, x);
      }
      assert Graft(g, w.name, x).subs == Graft(v, parent, WithChild(w, x)).subs;
    }
  }

  // ---------- replaying the views ----------

  ghost predicate Apart(v: View, w: View) {
    forall name :: !(InTree(v, name) && InTree(w, name))
  }

  /** No name occurs twice in the tree. */
  ghost predicate OwnNames(v: View)
    decreases v
  {
    && (forall i :: 0 <= i < |v.subs| ==> !InTree(v.subs[i], v.name) && OwnNames(v.subs[i]))
    && (forall i, j :: 0 <= i < j < |v.subs| ==> Apart(v.subs[i], v.subs[j]))
  }

  ghost predicate ForestApart(v: View, ws: seq<View>) {
    forall i :: 0 <= i < |ws| ==> Apart(v, ws[i])
  }

  ghost predicate OwnForest(ws: seq<View>) {
    && (forall i :: 0 <= i < |ws| ==> OwnNames(ws[i]))
    && (forall i, j :: 0 <= i < j < |ws| ==> Apart(ws[i], ws[j]))
  }

  /** One record adds one empty view. */
  lemma {:induction false} CreateGrafts(v: View, parent: string, name: string, spec: Spec)
    requires IsBare(v) && InTree(v, parent) && !InTree(v, name)
    ensures ReplayOne(Some(Store(map[], v)), CreateView(parent, name, spec)) ==
      Some(Store(map[], Graft(v, parent, Bare(name, spec))))
  {
    BareLists(v, map[]);
  }

  /** Replaying the records of a subtree grafts its mirror image. */
  lemma {:induction false} SubtreeReplays(v: View, parent: string, c: View)
    requires IsBare(v) && InTree(v, parent) && OwnNames(c) && Apart(v, c)
    ensures Replay(Some(Store(map[], v)), LogView(c, parent)) == Some(Store(map[], Graft(v, parent, Mirror(c))))
    decreases c, 1
  {
    var w := Bare(c.name, c.spec);
    assert InTree(c, c.name);
    CreateGrafts(v, parent, c.name, c.spec);
    GraftBare(v, parent, w);
    ReplayJoin(Some(Store(map[], v)), [CreateView(parent, c.name, c.spec)], LogSubs(c.subs, c.name));
    ReplaySingle(Some(Store(map[], v)), CreateView(parent, c.name, c.spec));
    forall i | 0 <= i < |c.subs| ensures Apart(v, c.subs[i]) && Apart(w, c.subs[i]) {
      SubApart(v, c, i);
      BareApart(c, i);
    }
    ForestReplays(v, parent, w, c.subs);
    assert View(w.name, w.spec, [], map[], MirrorSubs(c.subs) + w.subs) == Mirror(c) by {
      assert MirrorSubs(c.subs) + [] == MirrorSubs(c.subs);
    }
  }

  lemma {:induction false} ReplaySingle(s: Option<Store>, rec: StateRec)
    ensures Replay(s, [rec]) == ReplayOne(s, rec)
  {
    hide ReplayOne;
    assert [rec][1..] == [];
  }

  lemma {:induction false} SubApart(v: View, c: View, i: nat)
    requires Apart(v, c) && i < |c.subs|
    ensures Apart(v, c.subs[i])
  {
    forall name ensures !(InTree(v, name) && InTree(c.subs[i], name)) {
      assert InTree(c.subs[i], name) ==> InTree(c, name);
    }
  }

  lemma {:induction false} BareApart(c: View, i: nat)
    requires OwnNames(c) && i < |c.subs|
    ensures Apart(Bare(c.name, c.spec), c.subs[i])
  {
  }

  lemma {:induction false} GraftApart(v: View, parent: string, w: View, c: View)
    requires IsBare(v) && InTree(v, parent) && Apart(v, c) && Apart(w, c)
    ensures Apart(Graft(v, parent, w), c) && InTree(Graft(v, parent, w), w.name)
  {
    var g := Graft(v, parent, w);
    forall name ensures InTree(g, name) <==> InTree(v, name) || InTree(w, name) { GraftNames(v, parent, w, name); }
    hide Graft;
    assert InTree(w, w.name);
  }

  /** The same for the children of a view `w` that was just grafted. */
  lemma {:induction false} ForestReplays(v: View, parent: string, w: View, cs: seq<View>)
    requires IsBare(v) && IsBare(w) && InTree(v, parent) && !InTree(v, w.name)
    requires OwnForest(cs) && ForestApart(v, cs) && ForestApart(w, cs)
    ensures Replay(Some(Store(map[], Graft(v, parent, w))), LogSubs(cs, w.name))
         == Some(Store(map[], Graft(v, parent, View(w.name, w.spec, [], map[], MirrorSubs(cs) + w.subs))))
    decreases cs, 0
  {
    hide Graft;
    hide IsBare;
    hide InTree;
    hide ReplayOne;
    var g := Graft(v, parent, w);
    GraftBare(v, parent, w);
    if cs == [] {
      BareItself(w);
    } else {
      var x := Mirror(cs[0]);
      GraftApart(v, parent, w, cs[0]);
      SubtreeReplays(g, w.name, cs[0]);
      GraftInside(v, parent, w, x);
      ReplayJoin(Some(Store(map[], g)), LogView(cs[0], w.name), LogSubs(cs[1..], w.name));
      WithChildFacts(w, cs);
      assert ForestApart(v, cs[1..]);
      ForestReplays(v, parent, WithChild(w, x), cs[1..]);
      assert MirrorSubs(cs[1..]) + ([x] + w.subs) == MirrorSubs(cs) + w.subs;
      hide Replay;
    }
  }

  lemma {:induction false} BareItself(w: View)
    requires IsBare(w)
    ensures View(w.name, w.spec, [], map[], [] + w.subs) == w
  {
    assert [] + w.subs == w.subs;
  }

  lemma {:induction false} WithChildFacts(w: View, cs: seq<View>)
    requires IsBare(w) && cs != [] && OwnForest(cs) && ForestApart(w, cs)
    ensures IsBare(WithChild(w, Mirror(cs[0]))) && OwnForest(cs[1..])
    ensures ForestApart(WithChild(w, Mirror(cs[0])), cs[1..])
  {
    var u := WithChild(w, Mirror(cs[0]));
    MirrorBare(cs[0]);
    assert forall i :: 1 <= i < |u.subs| ==> u.subs[i] == w.subs[i - 1];
    forall i | 0 <= i < |cs[1..]| ensures Apart(u, cs[1..][i]) {
      assert Apart(cs[0], cs[i + 1]) && Apart(w, cs[i + 1]);
      forall name ensures !(InTree(u, name) && InTree(cs[i + 1], name)) {
        MirrorNames(cs[0], name);
        ChildNames(w, Mirror(cs[0]), name);
      }
    }
  }

  lemma {:induction false} ChildNames(w: View, x: View, name: string)
    ensures InTree(WithChild(w, x), name) <==> InTree(w, name) || InTree(x, name)
  {
    var u := WithChild(w, x);
    assert forall i :: 0 <= i < |w.subs| ==> u.subs[i + 1] == w.subs[i];
    assert u.subs[0] == x;
  }

  /** Replaying the records of all views rebuilds the mirror image of the tree. */
  lemma {:induction false} ViewsReplay(v: View, cs: seq<View>)
    requires IsBare(v) && OwnForest(cs) && ForestApart(v, cs)
    ensures Replay(Some(Store(map[], v)), LogSubs(cs, v.name)) ==
      Some(Store(map[], View(v.name, v.spec, [], map[], MirrorSubs(cs) + v.subs)))
    decreases |cs|
  {
    if cs == [] {
      BareItself(v);
    } else {
      var x := Mirror(cs[0]);
      assert InTree(v, v.name);
      SubtreeReplays(v, v.name, cs[0]);
      GraftUnfold(v, v.name, x);
      ReplayJoin(Some(Store(map[], v)), LogView(cs[0], v.name), LogSubs(cs[1..], v.name));
      WithChildFacts(v, cs);
      hide Graft;
      ViewsReplay(WithChild(v, x), cs[1..]);
      assert MirrorSubs(cs[1..]) + ([x] + v.subs) == MirrorSubs(cs) + v.subs;
    }
  }

  // ---------- replaying the ads ----------

  function Skeleton(v: View): View
    decreases v
  {
    View(v.name, v.spec, [], map[], seq(|v.subs|, i requires 0 <= i < |v.subs| => Skeleton(v.subs[i])))
  }

  lemma {:induction false} SkeletonOfBare(v: View)
    requires IsBare(v)
    ensures Skeleton(v) == v
    decreases v
  {
    forall i | 0 <= i < |v.subs| ensures Skeleton(v.subs[i]) == v.subs[i] { SkeletonOfBare(v.subs[i]); }
    assert Skeleton(v).subs == v.subs;
  }

  lemma {:induction false} InsertKeepsSkeleton(v: View, key: string, ad: Ad)
    ensures Skeleton(Inserted(v, key, ad)) == Skeleton(v)
    decreases v
  {
    if v.spec.fits(ad) {
      forall i | 0 <= i < |v.subs| ensures Skeleton(Inserted(v.subs[i], key, ad)) == Skeleton(v.subs[i]) {
        InsertKeepsSkeleton(v.subs[i], key, ad);
      }
      assert Skeleton(Inserted(v, key, ad)).subs == Skeleton(v).subs;
    }
  }

  lemma {:induction false} DeleteKeepsSkeleton(v: View, key: string)
    ensures Skeleton(Deleted(v, key)) == Skeleton(v)
    decreases v
  {
    if key in v.index {
      forall i | 0 <= i < |v.subs| ensures Skeleton(Deleted(v.subs[i], key)) == Skeleton(v.subs[i]) {
        DeleteKeepsSkeleton(v.subs[i], key);
      }
      assert Skeleton(Deleted(v, key)).subs == Skeleton(v).subs;
    }
  }

  function Taken(t: Table, keys: seq<string>): Table {
    map key | key in t && key in keys :: t[key]
  }

  lemma {:induction false} AdReplays(s: Store, key: string, ad: Ad)
    requires Good(s)
    ensures Good(Called(s, Put(key, ad))) && Called(s, Put(key, ad)).table == s.table[key := ad]
    ensures Skeleton(Called(s, Put(key, ad)).root) == Skeleton(s.root)
  {
    CalledGood(s, Put(key, ad));
    DeleteKeepsSkeleton(s.root, key);
    InsertKeepsSkeleton(Deleted(s.root, key), key, ad);
    hide Good;
    hide Skeleton;
    hide Inserted;
    hide Deleted;
  }

  lemma TakenStep(have: Table, t: Table, keys: seq<string>)
    requires keys != [] && keys[0] in t
    ensures have[keys[0] := t[keys[0]]] + Taken(t, keys[1..]) == have + Taken(t, keys)
  {
    assert keys == [keys[0]] + keys[1..];
  }

  lemma {:induction false} AdsReplay(s: Store, t: Table, keys: seq<string>)
    requires Good(s) && (forall key :: key in keys ==> key in t)
    ensures var r := Replay(Some(s), LogAds(t, keys));
            r.Some? && Good(r.value) && r.value.table == s.table + Taken(t, keys) &&
              Skeleton(r.value.root) == Skeleton(s.root)
    decreases |keys|
  {
    hide Good;
    hide Skeleton;
    hide Called;
    if keys == [] {
      assert s.table + Taken(t, keys) == s.table;
    } else {
      var key := keys[0];
      AdReplays(s, key, t[key]);
      var s1 := Called(s, Put(key, t[key]));
      assert LogAds(t, keys)[1..] == LogAds(t, keys[1..]) && LogAds(t, keys)[0] == AddRec(key, t[key]);
      AdsReplay(s1, t, keys[1..]);
      TakenStep(s.table, t, keys);
      assert ReplayOne(Some(s), AddRec(key, t[key])) == Some(s1);
      hide LogAds;
      hide Taken;
    }
  }

  // ---------- the theorem ----------

  /** The same views with the same constraint, rank and members, the children of every view in opposite order. */
  ghost predicate Reflects(v: View, w: View)
    decreases v
  {
    && v.name == w.name && v.spec == w.spec && v.index.Keys == w.index.Keys && |v.subs| == |w.subs|
    && forall i :: 0 <= i < |v.subs| ==> Reflects(v.subs[i], w.subs[|v.subs| - 1 - i])
  }

  lemma {:induction false} SameMembers(v: View, w: View, t: Table)
    requires Holds(v, t) && Holds(w, t) && v.spec == w.spec
    ensures v.index.Keys == w.index.Keys
  {
    hide SameRank;
    forall key ensures key in v.index <==> key in w.index {}
  }

  lemma {:induction false} MirroredReflects(v: View, w: View, t: Table)
    requires Exact(v, t) && Exact(w, t) && Skeleton(w) == Mirror(v)
    ensures Reflects(v, w)
    decreases v
  {
    var n := |v.subs|;
    assert Skeleton(w).spec == v.spec && |Skeleton(w).subs| == n;
    assert Holds(v, t) && Holds(w, t);
    SameMembers(v, w, t);
    hide Holds;
    forall i | 0 <= i < n ensures Reflects(v.subs[i], w.subs[n - 1 - i]) {
      assert Skeleton(w.subs[n - 1 - i]) == Skeleton(w).subs[n - 1 - i] == Mirror(v.subs[i]);
      assert Visible(v, t) == Visible(w, t);
      MirroredReflects(v.subs[i], w.subs[n - 1 - i], Visible(v, t));
    }
  }

  lemma {:induction false} OwnSubs(v: View)
    requires OwnNames(v)
    ensures OwnForest(v.subs) && ForestApart(Bare(v.name, v.spec), v.subs)
  {
    forall i | 0 <= i < |v.subs| ensures Apart(Bare(v.name, v.spec), v.subs[i]) { BareApart(v, i); }
  }

  /**
   Replaying the records of a truncated log into an empty collection recreates
   the same table and the same tree of views with the same members.
   */
  lemma {:induction false} TruncationPreserves(s: Store, keys: seq<string>)
    requires Good(s) && OwnNames(s.root) && Enumerates(keys, s.table)
    ensures var r := Replay(Some(Store(map[], Bare(s.root.name, s.root.spec))), LogState(s, keys));
            r.Some? && r.value.table == s.table && Reflects(s.root, r.value.root) && Good(r.value)
  {
    var m := Mirror(s.root);
    var log := LogState(s, keys);
    var r := Replay(Some(Store(map[], Bare(s.root.name, s.root.spec))), log);
    assert r == Replay(Some(Store(map[], m)), LogAds(s.table, keys)) by { ViewsFirst(s, keys); }
    MirrorBare(s.root);
    BareTreeExact(m);
    SkeletonOfBare(m);
    hide *;
    assert Good(Store(map[], m)) by { GoodFrom(Store(map[], m)); }
    EnumeratedInTable(s.table, keys);
    AdsReplay(Store(map[], m), s.table, keys);
    GoodMeans(r.value);
    GoodMeans(s);
    MirroredReflects(s.root, r.value.root, s.table);
  }

  lemma {:induction false} ViewsFirst(s: Store, keys: seq<string>)
    requires OwnNames(s.root) && Enumerates(keys, s.table)
    ensures Replay(Some(Store(map[], Bare(s.root.name, s.root.spec))), LogState(s, keys))
         == Replay(Some(Store(map[], Mirror(s.root))), LogAds(s.table, keys))
  {
    var bare := Bare(s.root.name, s.root.spec);
    OwnSubs(s.root);
    ViewsReplay(bare, s.root.subs);
    assert MirrorSubs(s.root.subs) + [] == MirrorSubs(s.root.subs);
    ReplayJoin(Some(Store(map[], bare)), LogSubs(s.root.subs, s.root.name), LogAds(s.table, keys));
    hide Replay;
  }

  lemma {:induction false} GoodFrom(s: Store)
    requires Exact(s.root, s.table) && Tidy(s.root)
    ensures Good(s)
  {
  }

  lemma {:induction false} GoodMeans(s: Store)
    requires Good(s)
    ensures Exact(s.root, s.table) && Tidy(s.root)
  {
  }

  lemma EnumeratedInTable(t: Table, keys: seq<string>)
    requires Enumerates(keys, t)
    ensures (forall key :: key in keys ==> key in t) && map[] + Taken(t, keys) == t
  {
  }
}
