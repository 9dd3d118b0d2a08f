/** The view tree on the heap, each view updating its own list and index and passing the ad on to its children. */
module ViewNodes {
  import opened Values
  import opened ViewOrder
  import opened Transactions
  import V = Views
  import T = ViewTree

  class ViewNode {
    const name: string
    const spec: V.Spec
    var list: seq<Member>
    var index: map<string, Member>
    var subs: seq<ViewNode>
    ghost var Repr: set<object>

    ghost predicate Valid()
      reads this, Repr
      decreases Repr
    {
      && this in Repr
      && (forall i :: 0 <= i < |subs| ==>
        subs[i] in Repr && subs[i].Repr <= Repr && this !in subs[i].Repr && subs[i].Valid())
      && (forall i, j :: 0 <= i < j < |subs| ==> subs[i].Repr !! subs[j].Repr)
    }

    /** The view and everything below it, as a value. */
    ghost function Value(): V.View
      requires Valid()
      reads this, Repr
      decreases Repr
    {
      V.View(name, spec, list, index,
             seq(|subs|, i requires 0 <= i < |subs| && Valid() reads this, Repr => subs[i].Value()))
    }

    /** What the children of a valid view are. */
    lemma KidsValid()
      requires Valid()
      ensures this in Repr
      ensures forall i :: 0 <= i < |subs| ==>
                subs[i].Valid() && subs[i] in subs[i].Repr && subs[i].Repr <= Repr && this !in subs[i].Repr
      ensures forall i, j :: 0 <= i < j < |subs| ==> subs[i].Repr !! subs[j].Repr
    {
      assert forall i :: 0 <= i < |subs| ==> subs[i].Valid();
    }

    constructor (viewName: string, viewSpec: V.Spec)
      ensures Valid() && fresh(Repr) && Value() == V.View(viewName, viewSpec, [], map[], [])
    {
      name, spec, list, index, subs := viewName, viewSpec, [], map[], [];
      Repr := {this};
    }

    /** The new view becomes the first child and holds the members that it takes from this one. */
    method InsertSubordinateView(viewName: string, viewSpec: V.Spec, t: Table)
      requires Valid() && forall m :: m in list ==> m.key in t
      modifies this
      ensures Valid() && fresh(Repr - old(Repr))
      ensures var was := old(Value());
              Value() == V.View(was.name, was.spec, was.list, was.index,
                                [T.Filled(T.Bare(viewName, viewSpec), was.list, t)] + was.subs)
    {
      assert Value().list == list;
      hide *;
      ghost var was := Value();
      var child := FillView(viewName, viewSpec, list, t);
      assert Valid() && Value() == was;
      AddChild(child);
    }

    method AddChild(child: ViewNode)
      requires Valid() && child.Valid() && Repr !! child.Repr
      modifies this
      ensures Valid() && Repr == old(Repr) + old(child.Repr)
      ensures var was := old(Value());
              Value() == V.View(was.name, was.spec, was.list, was.index, [old(child.Value())] + was.subs)
    {
      ghost var was, filled := Value(), child.Value();
      KidsValid();
      subs := [child] + subs;
      Repr := Repr + child.Repr;
      assert forall i :: 1 <= i < |subs| ==> subs[i].Valid() && subs[i].Value() == was.subs[i - 1];
      assert child in child.Repr && child.Valid() && child.Value() == filled;
      assert Valid();
      assert Value().subs == [filled] + was.subs;
    }

    /** Writing the own list and index leaves the children alone. */
    method SetOwn(newList: seq<Member>, newIndex: map<string, Member>)
      requires Valid()
      modifies this`list, this`index
      ensures Valid() && list == newList && index == newIndex
      ensures Value() == V.View(old(Value()).name, old(Value()).spec, newList, newIndex, old(Value()).subs)
    {
      ghost var was := Value();
      list, index := newList, newIndex;
      assert Valid();
      assert forall i :: 0 <= i < |subs| ==> subs[i].Value() == was.subs[i];
      assert Value().subs == was.subs;
    }

    /** The loop of `ClassAdInserted` over the children. */
    method InsertedBelow(key: string, ad: Ad)
      requires Valid()
      modifies Repr - {this}
      ensures forall j :: 0 <= j < |subs| ==> subs[j].Valid() && subs[j].Repr == old(subs[j].Repr)
      ensures forall j :: 0 <= j < |subs| ==> subs[j].Value() == V.Inserted(old(subs[j].Value()), key, ad)
      decreases Repr, 0
    {
      hide *;
      KidsValid();
      var i := 0;
      while i < |subs|
        invariant i <= |subs|
        invariant forall j :: 0 <= j < |subs| ==> subs[j].Valid() && subs[j].Repr == old(subs[j].Repr)
        invariant forall j :: 0 <= j < i ==> subs[j].Value() == V.Inserted(old(subs[j].Value()), key, ad)
        invariant forall j :: i <= j < |subs| ==> subs[j].Value() == old(subs[j].Value())
        decreases |subs| - i
      {
        subs[i].ClassAdInserted(key, ad);
        i := i + 1;
      }
    }

    method ClassAdInserted(key: string, ad: Ad)
      requires Valid()
      modifies Repr
      ensures Valid() && Repr == old(Repr) && Value() == V.Inserted(old(Value()), key, ad)
      decreases Repr, 1
    {
      ghost var was := Value();
      InsertedIs(was, key, ad);
      if !spec.fits(ad) { return; }
      InsertedBelow(key, ad);
      var m := Member(key, spec.rank(ad));
      SetOwn(InsertMember(list, m), index[key := m]);
    }

    /** The loop of `ClassAdDeleted` over the children. */
    method DeletedBelow(key: string)
      requires Valid()
      modifies Repr - {this}
      ensures forall j :: 0 <= j < |subs| ==> subs[j].Valid() && subs[j].Repr == old(subs[j].Repr)
      ensures forall j :: 0 <= j < |subs| ==> subs[j].Value() == V.Deleted(old(subs[j].Value()), key)
      decreases Repr, 0
    {
      hide *;
      KidsValid();
      var i := 0;
      while i < |subs|
        invariant i <= |subs|
        invariant forall j :: 0 <= j < |subs| ==> subs[j].Valid() && subs[j].Repr == old(subs[j].Repr)
        invariant forall j :: 0 <= j < i ==> subs[j].Value() == V.Deleted(old(subs[j].Value()), key)
        invariant forall j :: i <= j < |subs| ==> subs[j].Value() == old(subs[j].Value())
        decreases |subs| - i
      {
        subs[i].ClassAdDeleted(key);
        i := i + 1;
      }
    }

    method ClassAdDeleted(key: string)
      requires Valid()
      modifies Repr
      ensures Valid() && Repr == old(Repr) && Value() == V.Deleted(old(Value()), key)
      decreases Repr, 1
    {
      ghost var was := Value();
      DeletedIs(was, key);
      if key !in index { return; }
      SetOwn(EraseOne(list, index[key]), index - {key});
      DeletedBelow(key);
    }

    /** The loop of `ClassAdModified` over the children. */
    method ModifiedBelow(key: string, ad: Ad)
      requires Valid()
      modifies Repr - {this}
      ensures forall j :: 0 <= j < |subs| ==> subs[j].Valid() && subs[j].Repr == old(subs[j].Repr)
      ensures forall j :: 0 <= j < |subs| ==> subs[j].Value() == V.Modified(old(subs[j].Value()), key, ad)
      decreases Repr, 0
    {
      hide *;
      KidsValid();
      var i := 0;
      while i < |subs|
        invariant i <= |subs|
        invariant forall j :: 0 <= j < |subs| ==> subs[j].Valid() && subs[j].Repr == old(subs[j].Repr)
        invariant forall j :: 0 <= j < i ==> subs[j].Value() == V.Modified(old(subs[j].Value()), key, ad)
        invariant forall j :: i <= j < |subs| ==> subs[j].Value() == old(subs[j].Value())
        decreases |subs| - i
      {
        subs[i].ClassAdModified(key, ad);
        i := i + 1;
      }
    }

    method ClassAdModified(key: string, ad: Ad)
      requires Valid()
      modifies Repr
      ensures Valid() && Repr == old(Repr) && Value() == V.Modified(old(Value()), key, ad)
      decreases Repr, 1
    {
      ghost var was := Value();
      ModifiedIs(was, key, ad);
      if key in index && spec.fits(ad) {
        var rank, before := spec.rank(ad), index[key].rank;
        var same := V.SameRank(rank, before);
        rank, before := V.Promoted(rank, before), V.Promoted(before, rank);
        if !same {
          var m := Member(key, rank);
          SetOwn(InsertMember(EraseAlike(list, Member(key, before)), m), index[key := m]);
        }
        ModifiedBelow(key, ad);
      } else if key in index {
        ClassAdDeleted(key);
      } else if spec.fits(ad) {
        ClassAdInserted(key, ad);
      }
    }
  }

  /** A new view holding what the members of its parent's list call for. */
  method FillView(name: string, spec: V.Spec, list: seq<Member>, t: Table) returns (child: ViewNode)
    requires forall m :: m in list ==> m.key in t
    ensures child.Valid() && fresh(child.Repr) && child.Value() == T.Filled(T.Bare(name, spec), list, t)
  {
    child := new ViewNode(name, spec);
    var i := 0;
    assert list[0..] == list;
    while i < |list|
      invariant i <= |list| && child.Valid() && fresh(child.Repr)
      invariant T.Filled(child.Value(), list[i..], t) == T.Filled(T.Bare(name, spec), list, t)
      decreases |list| - i
    {
      hide V.Inserted;
      var key := list[i].key;
      assert list[i..][0] == list[i] && list[i..][1..] == list[i + 1..];
      child.ClassAdInserted(key, t[key]);
      i := i + 1;
    }
    assert list[i..] == [];
  }

  function InsertedAll(vs: seq<V.View>, key: string, ad: Ad): seq<V.View> {
    seq(|vs|, i requires 0 <= i < |vs| => V.Inserted(vs[i], key, ad))
  }

  function DeletedAll(vs: seq<V.View>, key: string): seq<V.View> {
    seq(|vs|, i requires 0 <= i < |vs| => V.Deleted(vs[i], key))
  }

  function ModifiedAll(vs: seq<V.View>, key: string, ad: Ad): seq<V.View> {
    seq(|vs|, i requires 0 <= i < |vs| => V.Modified(vs[i], key, ad))
  }

  lemma {:induction false} InsertedIs(v: V.View, key: string, ad: Ad)
    ensures V.Inserted(v, key, ad) ==
            if !v.spec.fits(ad) then v
            else
              var m := Member(key, v.spec.rank(ad));
              V.View(v.name, v.spec, InsertMember(v.list, m), v.index[key := m], InsertedAll(v.subs, key, ad))
  {
    if v.spec.fits(ad) { assert V.Inserted(v, key, ad).subs == InsertedAll(v.subs, key, ad); }
  }

  lemma {:induction false} DeletedIs(v: V.View, key: string)
    ensures V.Deleted(v, key) ==
            if key !in v.index then v
            else V.View(v.name, v.spec, EraseOne(v.list, v.index[key]), v.index - {key}, DeletedAll(v.subs, key))
  {
    if key in v.index { assert V.Deleted(v, key).subs == DeletedAll(v.subs, key); }
  }

  lemma {:induction false} ModifiedIs(v: V.View, key: string, ad: Ad)
    ensures V.Modified(v, key, ad) ==
            if key in v.index && v.spec.fits(ad) then
              V.View(v.name, v.spec, V.Reranked(v, key, ad).0, V.Reranked(v, key, ad).1, ModifiedAll(v.subs, key, ad))
            else if key in v.index then V.Deleted(v, key)
            else if v.spec.fits(ad) then V.Inserted(v, key, ad)
            else v
  {
    hide V.Reranked;
    if key in v.index && v.spec.fits(ad) { assert V.Modified(v, key, ad).subs == ModifiedAll(v.subs, key, ad); }
  }
}
