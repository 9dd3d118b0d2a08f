/**
 Runs of a collection's views: ads put, changed and dropped, and subordinate
 views added anywhere in the tree.
 */
module ViewTree {
  import opened Values
  import opened ViewOrder
  import opened Transactions
  import opened Views

  // ---------- adding a view ----------

  /** Every member that a list names has its ad in the table. */
  predicate ListsIn(v: View, t: Table)
    decreases v
  {
    (forall m :: m in v.list ==> m.key in t) && forall i :: 0 <= i < |v.subs| ==> ListsIn(v.subs[i], t)
  }

  function Bare(name: string, spec: Spec): View {
    View(name, spec, [], map[], [])
  }

  /** The members of a parent inserted into a new view, in the order of the parent's list. */
  function Filled(w: View, list: seq<Member>, t: Table): View
    requires forall m :: m in list ==> m.key in t
    decreases |list|
  {
    if list == [] then w else Filled(Inserted(w, list[0].key, t[list[0].key]), list[1..], t)
  }

  /** `InsertSubordinateView` below the view called `parent`. */
  function AddView(v: View, parent: string, w: View, t: Table): View
    requires ListsIn(v, t)
    decreases v
  {
    if v.name == parent then View(v.name, v.spec, v.list, v.index, [Filled(w, v.list, t)] + v.subs)
    else
      View(v.name, v.spec, v.list, v.index,
           seq(|v.subs|, i requires 0 <= i < |v.subs| => AddView(v.subs[i], parent, w, t)))
  }

  function Restrict(t: Table, list: seq<Member>): Table {
    map key | key in t && exists m :: m in list && m.key == key :: t[key]
  }

  lemma {:induction false} FilledExact(w: View, have: Table, list: seq<Member>, t: Table)
    requires Exact(w, have) && Tidy(w) && KeysOnce(list)
    requires forall m :: m in list ==> m.key in t && m.key !in have
    ensures Exact(Filled(w, list, t), have + Restrict(t, list)) && Tidy(Filled(w, list, t))
    decreases |list|
  {
    hide Exact;
    hide Tidy;
    if list == [] {
      assert have + Restrict(t, list) == have;
    } else {
      var key := list[0].key;
      InsertExact(w, have, key, t[key]);
      InsertTidy(w, have, key, t[key]);
      KeysTail(list);
      assert list == [list[0]] + list[1..];
      FilledExact(Inserted(w, key, t[key]), have[key := t[key]], list[1..], t);
      RestrictStep(have, t, list);
    }
  }

  lemma RestrictStep(have: Table, t: Table, list: seq<Member>)
    requires list != [] && list[0].key in t
    ensures have[list[0].key := t[list[0].key]] + Restrict(t, list[1..]) == have + Restrict(t, list)
  {
    assert list == [list[0]] + list[1..];
    var a, b := Restrict(t, list), Restrict(t, list[1..]);
    assert forall key :: key in a <==> key in b || key == list[0].key;
  }

  /** A tidy, exact list names the ads that its view holds. */
  lemma {:induction false} ListIsVisible(v: View, t: Table)
    requires Exact(v, t) && Tidy(v)
    ensures Restrict(t, v.list) == Visible(v, t) && forall m :: m in v.list ==> m.key in t
  {
    assert Holds(v, t) && Agrees(v.list, v.index);
    hide Exact;
    hide Tidy;
    hide Ordered;
    hide SameRank;
    forall key ensures (exists m :: m in v.list && m.key == key) <==> key in v.index {
      if key in v.index { assert v.index[key] in v.list; }
    }
  }

  lemma {:induction false} ExactLists(v: View, t: Table)
    requires Exact(v, t) && Tidy(v)
    ensures ListsIn(v, t)
    decreases v
  {
    ListIsVisible(v, t);
    forall i | 0 <= i < |v.subs| ensures ListsIn(v.subs[i], t) {
      ExactLists(v.subs[i], Visible(v, t));
      ListsGrow(v.subs[i], Visible(v, t), t);
    }
  }

  lemma {:induction false} ListsGrow(v: View, t: Table, u: Table)
    requires ListsIn(v, t) && t.Keys <= u.Keys
    ensures ListsIn(v, u)
    decreases v
  {
    forall i | 0 <= i < |v.subs| ensures ListsIn(v.subs[i], u) { ListsGrow(v.subs[i], t, u); }
  }

  lemma {:induction false} BareExact(name: string, spec: Spec)
    ensures Exact(Bare(name, spec), map[]) && Tidy(Bare(name, spec))
  {
    hide SameRank;
  }

  lemma {:induction false} NewChild(v: View, name: string, spec: Spec, t: Table)
    requires Exact(v, t) && Tidy(v) && (forall m :: m in v.list ==> m.key in t)
    ensures Exact(Filled(Bare(name, spec), v.list, t), Visible(v, t)) && Tidy(Filled(Bare(name, spec), v.list, t))
  {
    BareExact(name, spec);
    ListIsVisible(v, t);
    assert KeysOnce(v.list);
    hide Exact;
    hide Tidy;
    FilledExact(Bare(name, spec), map[], v.list, t);
    assert map[] + Restrict(t, v.list) == Restrict(t, v.list);
  }

  /** A new view comes up holding exactly what it should. */
  lemma {:induction false} AddViewExact(v: View, parent: string, name: string, spec: Spec, t: Table, u: Table)
    requires Exact(v, t) && Tidy(v) && ListsIn(v, u) && forall key :: key in t ==> key in u && u[key] == t[key]
    ensures Exact(AddView(v, parent, Bare(name, spec), u), t) && Tidy(AddView(v, parent, Bare(name, spec), u))
    decreases v
  {
    var w := AddView(v, parent, Bare(name, spec), u);
    assert Holds(v, t) && Agrees(v.list, v.index);
    assert Visible(w, t) == Visible(v, t) && Holds(w, t) && Agrees(w.list, w.index);
    if v.name == parent {
      ListIsVisible(v, t);
      NewChild(v, name, spec, t);
      FilledSame(Bare(name, spec), v.list, t, u);
      assert forall i :: 0 <= i < |w.subs| ==>
        w.subs[i] == if i == 0 then Filled(Bare(name, spec), v.list, u) else v.subs[i - 1];
    } else {
      forall i | 0 <= i < |v.subs|
        ensures Exact(AddView(v.subs[i], parent, Bare(name, spec), u), Visible(v, t)) &&
          Tidy(AddView(v.subs[i], parent, Bare(name, spec), u))
      {
        AddViewExact(v.subs[i], parent, name, spec, Visible(v, t), u);
      }
      assert forall i :: 0 <= i < |w.subs| ==> w.subs[i] == AddView(v.subs[i], parent, Bare(name, spec), u);
    }
    ChildrenExact(w, t);
  }

  lemma {:induction false} ChildrenExact(w: View, t: Table)
    requires Holds(w, t) && Agrees(w.list, w.index)
    requires forall i :: 0 <= i < |w.subs| ==> Exact(w.subs[i], Visible(w, t)) && Tidy(w.subs[i])
    ensures Exact(w, t) && Tidy(w)
  {
    hide Holds;
    hide Agrees;
  }

  lemma {:induction false} FilledSame(w: View, list: seq<Member>, t: Table, u: Table)
    requires forall m :: m in list ==> m.key in t && m.key in u && t[m.key] == u[m.key]
    ensures Filled(w, list, t) == Filled(w, list, u)
    decreases |list|
  {
    if list != [] { FilledSame(Inserted(w, list[0].key, t[list[0].key]), list[1..], t, u); }
  }

  // ---------- a new view below a list that does not agree with its index ----------

  predicate Named(list: seq<Member>, key: string) {
    exists m :: m in list && m.key == key
  }

  /**
   Wherever the new view comes up, the parent's list names the same of the ads
   that it takes as the parent's index has.
   */
  ghost predicate ListsAll(v: View, parent: string, spec: Spec, u: Table)
    decreases v
  {
    if v.name == parent then
      forall key :: key in u && spec.fits(u[key]) ==> (key in v.index <==> Named(v.list, key))
    else forall i :: 0 <= i < |v.subs| ==> ListsAll(v.subs[i], parent, spec, u)
  }

  /** What a view without children holds once the members of a list were inserted. */
  lemma {:induction false} FilledIndex(w: View, list: seq<Member>, u: Table)
    requires w.subs == [] && forall m :: m in list ==> m.key in u
    ensures var f := Filled(w, list, u);
      && f.spec == w.spec && f.subs == []
      && forall key ::
           if Named(list, key) && w.spec.fits(u[key]) then
             key in f.index && f.index[key] == Member(key, w.spec.rank(u[key]))
           else (key in f.index <==> key in w.index) && (key in w.index ==> f.index[key] == w.index[key])
    decreases |list|
  {
    if list != [] {
      var k := list[0].key;
      FilledIndex(Inserted(w, k, u[k]), list[1..], u);
      assert list == [list[0]] + list[1..];
      forall key ensures Named(list, key) <==> key == k || Named(list[1..], key) {}
      hide Named;
    }
  }

  lemma {:induction false} NewChildExactly(v: View, name: string, spec: Spec, t: Table, u: Table)
    requires Holds(v, t) && (forall m :: m in v.list ==> m.key in u)
    requires forall key :: key in t ==> key in u && u[key] == t[key]
    ensures Exact(Filled(Bare(name, spec), v.list, u), Visible(v, t)) <==> ListsAll(v, v.name, spec, u)
  {
    var f, seen := Filled(Bare(name, spec), v.list, u), Visible(v, t);
    FilledIndex(Bare(name, spec), v.list, u);
    forall key | key in u ensures SameRank(spec.rank(u[key]), spec.rank(u[key])) { SameAsItself(spec.rank(u[key])); }
    hide SameRank;
    hide Filled;
    assert forall key :: key in f.index <==> Named(v.list, key) && spec.fits(u[key]);
    assert forall key :: key in v.index <==> key in seen;
    hide Named;
  }

  /** A new view comes up exact if and only if the lists it is filled from name what it should hold. */
  lemma {:induction false} AddViewExactly(v: View, parent: string, name: string, spec: Spec, t: Table, u: Table)
    requires Exact(v, t) && ListsIn(v, u) && forall key :: key in t ==> key in u && u[key] == t[key]
    ensures Exact(AddView(v, parent, Bare(name, spec), u), t) <==> ListsAll(v, parent, spec, u)
    decreases v
  {
    var w := AddView(v, parent, Bare(name, spec), u);
    ExactParts(v, t);
    assert Visible(w, t) == Visible(v, t) && Holds(w, t) by { hide SameRank; }
    assert Exact(w, t) <==> forall i :: 0 <= i < |w.subs| ==> Exact(w.subs[i], Visible(v, t)) by { hide Holds; }
    hide Exact;
    hide Holds;
    if v.name == parent {
      NewChildExactly(v, name, spec, t, u);
      assert w.subs[0] == Filled(Bare(name, spec), v.list, u);
      assert forall i :: 1 <= i < |w.subs| ==> w.subs[i] == v.subs[i - 1];
    } else {
      forall i | 0 <= i < |v.subs|
        ensures Exact(AddView(v.subs[i], parent, Bare(name, spec), u), Visible(v, t)) <==>
          ListsAll(v.subs[i], parent, spec, u)
      {
        AddViewExactly(v.subs[i], parent, name, spec, Visible(v, t), u);
      }
      assert |w.subs| == |v.subs|;
      assert forall i :: 0 <= i < |v.subs| ==> w.subs[i] == AddView(v.subs[i], parent, Bare(name, spec), u);
    }
  }

  // ---------- runs ----------

  datatype Store = Store(table: Table, root: View)

  datatype ViewCall =
    | Put(key: string, ad: Ad)
    | Change(key: string, ad: Ad)
    | Drop(key: string)
    | NewView(parent: string, name: string, spec: Spec)

  /** A changed ad is there, and a new view finds the ads that the lists name. */
  predicate Allowed(s: Store, c: ViewCall) {
    match c
    case Change(key, ad) => key in s.table
    case NewView(_, _, _) => ListsIn(s.root, s.table)
    case _ => true
  }

  function Called(s: Store, c: ViewCall): Store
    requires Allowed(s, c)
  {
    match c
    case Put(key, ad) => Store(s.table[key := ad], Inserted(Deleted(s.root, key), key, ad))
    case Change(key, ad) => Store(s.table[key := ad], Modified(s.root, key, ad))
    case Drop(key) => Store(s.table - {key}, Deleted(s.root, key))
    case NewView(parent, name, spec) => s.(root := AddView(s.root, parent, Bare(name, spec), s.table))
  }

  ghost predicate Good(s: Store) {
    Exact(s.root, s.table) && Tidy(s.root)
  }

  /** What the calls do to the table of ads. */
  lemma TableFollows(s: Store, c: ViewCall, key: string)
    requires Allowed(s, c)
    ensures Get(Called(s, c).table, key) ==
      if c.NewView? || c.key != key then Get(s.table, key) else if c.Drop? then None else Some(c.ad)
  {
  }

  /** What a call needs for the indexes to stay exact. */
  ghost predicate FindsAll(s: Store, c: ViewCall) {
    c.NewView? ==> ListsAll(s.root, c.parent, c.spec, s.table)
  }

  /** What a call needs for lists and indexes to stay together. */
  predicate Spares(s: Store, c: ViewCall) {
    c.Change? ==> Harmless(s.root, c.key, c.ad)
  }

  lemma {:induction false} CalledExactly(s: Store, c: ViewCall)
    requires Exact(s.root, s.table) && Allowed(s, c)
    ensures Exact(Called(s, c).root, Called(s, c).table) <==> FindsAll(s, c)
  {
    hide Exact;
    hide ListsAll;
    match c
    case Put(key, ad) =>
      DeleteExact(s.root, s.table, key);
      InsertExact(Deleted(s.root, key), s.table - {key}, key, ad);
      assert (s.table - {key})[key := ad] == s.table[key := ad];
    case Change(key, ad) => ModifyExact(s.root, s.table, key, ad);
    case Drop(key) => DeleteExact(s.root, s.table, key);
    case NewView(parent, name, spec) => AddViewExactly(s.root, parent, name, spec, s.table, s.table);
  }

  lemma {:induction false} CalledGood(s: Store, c: ViewCall)
    requires Good(s) && Allowed(s, c)
    ensures Good(Called(s, c)) <==> Spares(s, c)
  {
    CalledExactly(s, c);
    hide Exact;
    hide Tidy;
    hide Harmless;
    hide ListsAll;
    match c
    case Put(key, ad) =>
      DeleteExact(s.root, s.table, key);
      DeleteTidy(s.root, key);
      InsertTidy(Deleted(s.root, key), s.table - {key}, key, ad);
    case Change(key, ad) => ModifyTidy(s.root, s.table, key, ad);
    case Drop(key) => DeleteTidy(s.root, key);
    case NewView(parent, name, spec) => AddViewExact(s.root, parent, name, spec, s.table, s.table);
  }

  ghost predicate IsRun(ss: seq<Store>, cs: seq<ViewCall>) {
    && |ss| == |cs| + 1
    && forall i :: 0 <= i < |cs| ==> Allowed(ss[i], cs[i]) && ss[i + 1] == Called(ss[i], cs[i])
  }

  ghost predicate AllExact(ss: seq<Store>) {
    forall i :: 0 <= i < |ss| ==> Exact(ss[i].root, ss[i].table)
  }

  ghost predicate AllGood(ss: seq<Store>) {
    forall i :: 0 <= i < |ss| ==> Good(ss[i])
  }

  lemma {:induction false} ExactUpTo(ss: seq<Store>, cs: seq<ViewCall>, i: nat)
    requires IsRun(ss, cs) && Exact(ss[0].root, ss[0].table) && i < |ss|
    requires forall j :: 0 <= j < |cs| ==> FindsAll(ss[j], cs[j])
    ensures Exact(ss[i].root, ss[i].table)
  {
    hide Called;
    hide Allowed;
    hide Exact;
    hide FindsAll;
    if i > 0 {
      ExactUpTo(ss, cs, i - 1);
      CalledExactly(ss[i - 1], cs[i - 1]);
    }
  }

  /**
   In every run, whatever the changes do to the ordered lists, the index of every
   view stays exact, if and only if each new view is filled from lists that name
   what it should hold.
   */
  lemma {:induction false} IndexesStayExact(ss: seq<Store>, cs: seq<ViewCall>)
    requires IsRun(ss, cs) && Exact(ss[0].root, ss[0].table)
    ensures AllExact(ss) <==> forall i :: 0 <= i < |cs| ==> FindsAll(ss[i], cs[i])
  {
    hide Called;
    hide Allowed;
    hide Exact;
    hide FindsAll;
    if AllExact(ss) {
      forall i | 0 <= i < |cs| ensures FindsAll(ss[i], cs[i]) {
        CalledExactly(ss[i], cs[i]);
        var j := i + 1;
        assert Exact(ss[j].root, ss[j].table);
      }
    } else if forall j :: 0 <= j < |cs| ==> FindsAll(ss[j], cs[j]) {
      forall i | 0 <= i < |ss| ensures Exact(ss[i].root, ss[i].table) { ExactUpTo(ss, cs, i); }
    }
  }

  lemma {:induction false} GoodUpTo(ss: seq<Store>, cs: seq<ViewCall>, i: nat)
    requires IsRun(ss, cs) && Good(ss[0]) && i < |ss|
    requires forall j :: 0 <= j < |cs| ==> Spares(ss[j], cs[j])
    ensures Good(ss[i])
  {
    hide Called;
    hide Allowed;
    hide Good;
    hide Spares;
    if i > 0 {
      GoodUpTo(ss, cs, i - 1);
      CalledGood(ss[i - 1], cs[i - 1]);
    }
  }

  /**
   In every run every view of the tree holds exactly the ads that satisfy its
   constraint and those of the views above it, and its ordered list holds the
   same keys as its index, each once, if and only if each change finds the member
   that moves and erases it alone.
   */
  lemma {:induction false} ViewsStayExact(ss: seq<Store>, cs: seq<ViewCall>)
    requires IsRun(ss, cs) && Good(ss[0])
    ensures AllGood(ss) <==> forall i :: 0 <= i < |cs| ==> Spares(ss[i], cs[i])
  {
    hide Called;
    hide Allowed;
    hide Good;
    hide Spares;
    if AllGood(ss) {
      forall i | 0 <= i < |cs| ensures Spares(ss[i], cs[i]) {
        CalledGood(ss[i], cs[i]);
        var j := i + 1;
        assert Good(ss[j]);
      }
    } else if forall j :: 0 <= j < |cs| ==> Spares(ss[j], cs[j]) {
      forall i | 0 <= i < |ss| ensures Good(ss[i]) { GoodUpTo(ss, cs, i); }
    }
  }
}
