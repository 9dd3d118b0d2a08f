/**
 The tree of subordinate views over the ads of a collection.

 Each view keeps its members twice: in a list ordered by rank and in an index
 by key.  A view checks its own constraint and passes on to its children only
 the ads that it holds itself.
 */
module Views {
  import opened Values
  import opened ViewOrder
  import opened Transactions

  /** A view's constraint and rank, as functions of an ad. */
  datatype Spec = Spec(fits: Ad -> bool, rank: Ad -> Value)

  datatype View = View(name: string, spec: Spec, list: seq<Member>, index: map<string, Member>, subs: seq<View>)

  predicate SameRank(v: Value, w: Value) {
    DoOperation(Is, v, w) == Bool(true)
  }

  /** `ClassAdInserted` */
  function Inserted(v: View, key: string, ad: Ad): View
    decreases v
  {
    if !v.spec.fits(ad) then v
    else
      var m := Member(key, v.spec.rank(ad));
      View(v.name, v.spec, InsertMember(v.list, m), v.index[key := m],
           seq(|v.subs|, i requires 0 <= i < |v.subs| => Inserted(v.subs[i], key, ad)))
  }

  /** `ClassAdDeleted` */
  function Deleted(v: View, key: string): View
    decreases v
  {
    if key !in v.index then v
    else
      View(v.name, v.spec, EraseOne(v.list, v.index[key]), v.index - {key},
           seq(|v.subs|, i requires 0 <= i < |v.subs| => Deleted(v.subs[i], key)))
  }

  predicate IsNumber(v: Value) {
    v.Bool? || v.Int?
  }

  /** Comparing two numbers leaves integers behind where there were booleans. */
  function Promoted(v: Value, w: Value): Value {
    if IsNumber(v) && IsNumber(w) then Int(NumberOf(v)) else v
  }

  /**
   The own list and index of a view whose member `key` has changed to `ad` and
   stays.  The comparison of the ranks promotes both before they are used.
   */
  function Reranked(v: View, key: string, ad: Ad): (seq<Member>, map<string, Member>)
    requires key in v.index
  {
    var was, rank := v.index[key].rank, v.spec.rank(ad);
    if SameRank(rank, was) then (v.list, v.index)
    else
      var m := Member(key, Promoted(rank, was));
      (InsertMember(EraseAlike(v.list, Member(key, Promoted(was, rank))), m), v.index[key := m])
  }

  /** `ClassAdModified` */
  function Modified(v: View, key: string, ad: Ad): View
    decreases v
  {
    if key in v.index && v.spec.fits(ad) then
      var (list, index) := Reranked(v, key, ad);
      View(v.name, v.spec, list, index,
           seq(|v.subs|, i requires 0 <= i < |v.subs| => Modified(v.subs[i], key, ad)))
    else if key in v.index then Deleted(v, key)
    else if v.spec.fits(ad) then Inserted(v, key, ad)
    else v
  }

  // ---------- membership ----------

  /** The ads that a view passes on to its children. */
  function Visible(v: View, t: Table): Table {
    map key | key in t && v.spec.fits(t[key]) :: t[key]
  }

  ghost predicate Holds(v: View, t: Table) {
    forall key ::
      && (key in v.index <==> key in t && v.spec.fits(t[key]))
      && (key in v.index ==> v.index[key].key == key && SameRank(v.spec.rank(t[key]), v.index[key].rank))
  }

  /**
   A key is in the index of a view exactly when its ad satisfies the constraints
   of the view and of all views above it, and its recorded rank is current.
   */
  ghost predicate Exact(v: View, t: Table)
    decreases v
  {
    Holds(v, t) && forall i :: 0 <= i < |v.subs| ==> Exact(v.subs[i], Visible(v, t))
  }

  lemma {:induction false} SameAsItself(v: Value)
    ensures SameRank(v, v)
  {
  }

  lemma {:induction false} InsertExactHere(v: View, t: Table, key: string, ad: Ad)
    requires Holds(v, t) && key !in t && v.spec.fits(ad)
    requires forall i :: 0 <= i < |v.subs| ==> Exact(Inserted(v.subs[i], key, ad), Visible(v, t[key := ad]))
    ensures Exact(Inserted(v, key, ad), t[key := ad])
  {
    hide Exact;
    hide SameRank;
    SameAsItself(v.spec.rank(ad));
    var w, t1 := Inserted(v, key, ad), t[key := ad];
    assert Visible(w, t1) == Visible(v, t1);
    assert forall i :: 0 <= i < |w.subs| ==> w.subs[i] == Inserted(v.subs[i], key, ad);
    assert Holds(w, t1);
    ExactFrom(w, t1);
  }

  lemma {:induction false} InsertExact(v: View, t: Table, key: string, ad: Ad)
    requires Exact(v, t) && key !in t
    ensures Exact(Inserted(v, key, ad), t[key := ad])
    decreases v
  {
    assert key !in Visible(v, t);
    assert !v.spec.fits(ad) ==> Inserted(v, key, ad) == v;
    hide *;
    if v.spec.fits(ad) {
      ExactParts(v, t);
      VisibleChange(v, t, key, ad);
      forall i | 0 <= i < |v.subs| ensures Exact(Inserted(v.subs[i], key, ad), Visible(v, t[key := ad])) {
        InsertExact(v.subs[i], Visible(v, t), key, ad);
      }
      InsertExactHere(v, t, key, ad);
    } else {
      assert t - {key} == t;
      DropIgnored(v, t, key, ad);
    }
  }

  lemma {:induction false} ExactFrom(v: View, t: Table)
    requires Holds(v, t) && forall i :: 0 <= i < |v.subs| ==> Exact(v.subs[i], Visible(v, t))
    ensures Exact(v, t)
  {
    hide Holds;
  }

  lemma {:induction false} DeleteExact(v: View, t: Table, key: string)
    requires Exact(v, t)
    ensures Exact(Deleted(v, key), t - {key})
    decreases v
  {
    hide SameRank;
    var t1 := t - {key};
    if key in v.index {
      assert Visible(v, t1) == Visible(v, t) - {key};
      forall i | 0 <= i < |v.subs| ensures Exact(Deleted(v.subs[i], key), Visible(v, t1)) {
        DeleteExact(v.subs[i], Visible(v, t), key);
      }
      assert Holds(v, t);
      hide Exact;
      var w := Deleted(v, key);
      assert Visible(w, t1) == Visible(v, t1);
      assert forall i :: 0 <= i < |w.subs| ==> w.subs[i] == Deleted(v.subs[i], key);
      assert Holds(w, t1);
      ExactFrom(w, t1);
    } else {
      assert Visible(v, t1) == Visible(v, t);
      assert Holds(v, t1);
    }
  }

  lemma {:induction false} SameAsPromoted(v: Value, w: Value)
    ensures SameRank(v, Promoted(v, w))
  {
  }

  lemma {:induction false} RerankHolds(v: View, t: Table, key: string, ad: Ad)
    requires Holds(v, t) && key in v.index && v.spec.fits(ad)
    ensures var (list, index) := Reranked(v, key, ad); Holds(View(v.name, v.spec, list, index, v.subs), t[key := ad])
  {
    SameAsPromoted(v.spec.rank(ad), v.index[key].rank);
    hide SameRank;
    hide Promoted;
  }

  lemma {:induction false} ModifyExactHere(v: View, t: Table, key: string, ad: Ad)
    requires Holds(v, t) && key in v.index && v.spec.fits(ad)
    requires forall i :: 0 <= i < |v.subs| ==> Exact(Modified(v.subs[i], key, ad), Visible(v, t[key := ad]))
    ensures Exact(Modified(v, key, ad), t[key := ad])
  {
    RerankHolds(v, t, key, ad);
    var w := Modified(v, key, ad);
    assert (w.list, w.index) == Reranked(v, key, ad) && w.spec == v.spec;
    assert forall i :: 0 <= i < |w.subs| ==> w.subs[i] == Modified(v.subs[i], key, ad);
    hide Reranked;
    hide Modified;
    hide SameRank;
    hide Exact;
    assert Visible(w, t[key := ad]) == Visible(v, t[key := ad]);
    ExactFrom(w, t[key := ad]);
  }

  lemma {:induction false} LeaveExact(v: View, t: Table, key: string, ad: Ad)
    requires Exact(v, t) && key in v.index && !v.spec.fits(ad)
    ensures Exact(Modified(v, key, ad), t[key := ad])
  {
    DeleteExact(v, t, key);
    assert Modified(v, key, ad) == Deleted(v, key) && Deleted(v, key).spec == v.spec;
    hide *;
    DropIgnored(Deleted(v, key), t, key, ad);
  }

  lemma {:induction false} EnterExact(v: View, t: Table, key: string, ad: Ad)
    requires Exact(v, t) && key !in v.index
    ensures Exact(Modified(v, key, ad), t[key := ad])
  {
    UnseenExact(v, t, key);
    assert v.spec.fits(ad) ==> Modified(v, key, ad) == Inserted(v, key, ad);
    assert !v.spec.fits(ad) ==> Modified(v, key, ad) == v;
    hide *;
    if v.spec.fits(ad) {
      InsertExact(v, t - {key}, key, ad);
      assert (t - {key})[key := ad] == t[key := ad];
    } else {
      DropIgnored(v, t, key, ad);
    }
  }

  lemma {:induction false} VisibleChange(v: View, t: Table, key: string, ad: Ad)
    requires v.spec.fits(ad)
    ensures Visible(v, t[key := ad]) == Visible(v, t)[key := ad]
  {
  }

  lemma {:induction false} ExactParts(v: View, t: Table)
    requires Exact(v, t)
    ensures Holds(v, t) && forall i :: 0 <= i < |v.subs| ==> Exact(v.subs[i], Visible(v, t))
    ensures forall key :: key in v.index ==> key in Visible(v, t)
  {
    hide SameRank;
  }

  lemma {:induction false} ModifyExact(v: View, t: Table, key: string, ad: Ad)
    requires Exact(v, t) && key in t
    ensures Exact(Modified(v, key, ad), t[key := ad])
    decreases v
  {
    hide *;
    if key in v.index && v.spec.fits(ad) {
      ExactParts(v, t);
      VisibleChange(v, t, key, ad);
      forall i | 0 <= i < |v.subs| ensures Exact(Modified(v.subs[i], key, ad), Visible(v, t[key := ad])) {
        ModifyExact(v.subs[i], Visible(v, t), key, ad);
      }
      ModifyExactHere(v, t, key, ad);
    } else if key in v.index {
      LeaveExact(v, t, key, ad);
    } else {
      EnterExact(v, t, key, ad);
    }
  }

  /** An ad that a view does not take makes no difference to it. */
  lemma {:induction false} DropIgnored(v: View, t: Table, key: string, ad: Ad)
    requires Exact(v, t - {key}) && !v.spec.fits(ad)
    ensures Exact(v, t[key := ad])
  {
    hide SameRank;
    assert Visible(v, t[key := ad]) == Visible(v, t - {key});
    assert Holds(v, t - {key});
    assert Holds(v, t[key := ad]);
    hide Holds;
  }

  lemma {:induction false} UnseenExact(v: View, t: Table, key: string)
    requires Exact(v, t) && key !in v.index
    ensures Exact(v, t - {key})
  {
    hide SameRank;
    assert Holds(v, t);
    assert Visible(v, t - {key}) == Visible(v, t);
    assert Holds(v, t - {key});
    hide Holds;
  }

  // ---------- the list and the index ----------

  /** The ordered list holds the members of the index, each once. */
  predicate Agrees(list: seq<Member>, index: map<string, Member>) {
    && Ordered(list) && KeysOnce(list)
    && (forall m :: m in list ==> m.key in index && index[m.key] == m)
    && (forall key :: key in index ==> index[key].key == key && index[key] in list)
  }

  predicate Tidy(v: View)
    decreases v
  {
    Agrees(v.list, v.index) && forall i :: 0 <= i < |v.subs| ==> Tidy(v.subs[i])
  }

  lemma {:induction false} InsertAgrees(list: seq<Member>, index: map<string, Member>, m: Member)
    requires Agrees(list, index) && m.key !in index
    ensures Agrees(InsertMember(list, m), index[m.key := m])
  {
    InsertKeepsOrder(list, m);
    InsertKeepsKeys(list, m);
    hide Ordered;
    hide KeysOnce;
  }

  lemma {:induction false} EraseAgrees(list: seq<Member>, index: map<string, Member>, key: string)
    requires Agrees(list, index) && key in index
    ensures Agrees(EraseOne(list, index[key]), index - {key})
  {
    hide Ordered;
    hide KeysOnce;
    var kept, left := EraseOne(list, index[key]), index - {key};
    EraseOneKeepsOrder(list, index[key]);
    EraseOneKeepsKeys(list, index[key]);
    hide EraseOne;
    forall m | m in kept ensures m.key in left && left[m.key] == m { assert m in list && m != index[key]; }
    forall k | k in left ensures left[k].key == k && left[k] in kept { assert index[k] in list; }
  }

  lemma {:induction false} InsertTidy(v: View, t: Table, key: string, ad: Ad)
    requires Tidy(v) && Exact(v, t) && key !in t
    ensures Tidy(Inserted(v, key, ad))
    decreases v
  {
    if v.spec.fits(ad) {
      assert Holds(v, t);
      forall i | 0 <= i < |v.subs| ensures Tidy(Inserted(v.subs[i], key, ad)) {
        InsertTidy(v.subs[i], Visible(v, t), key, ad);
      }
      InsertAgrees(v.list, v.index, Member(key, v.spec.rank(ad)));
      TidyFrom(Inserted(v, key, ad));
    }
  }

  lemma {:induction false} TidyFrom(v: View)
    requires Agrees(v.list, v.index) && forall i :: 0 <= i < |v.subs| ==> Tidy(v.subs[i])
    ensures Tidy(v)
  {
    hide Agrees;
  }

  lemma {:induction false} DeleteTidy(v: View, key: string)
    requires Tidy(v)
    ensures Tidy(Deleted(v, key))
    decreases v
  {
    hide Agrees;
    if key in v.index {
      forall i | 0 <= i < |v.subs| ensures Tidy(Deleted(v.subs[i], key)) { DeleteTidy(v.subs[i], key); }
      EraseAgrees(v.list, v.index, key);
      var w := Deleted(v, key);
      assert w.list == EraseOne(v.list, v.index[key]) && w.index == v.index - {key};
      assert forall i :: 0 <= i < |w.subs| ==> w.subs[i] == Deleted(v.subs[i], key);
      hide *;
      TidyFrom(w);
    }
  }

  /**
   When the rank of `key` changes to that of `ad`, its own member is found and
   erased, and no other together with it.
   */
  predicate Alone(v: View, key: string, ad: Ad)
    requires key in v.index
  {
    var was, rank := v.index[key].rank, v.spec.rank(ad);
    || SameRank(rank, was)
    || (&& !(was.Bool? && IsNumber(rank))
        && (!Untied(was) || forall k :: k in v.index && k != key ==> TypeNumber(v.index[k].rank) != TypeNumber(was)))
  }

  /** The same throughout the tree, where the change goes. */
  predicate Harmless(v: View, key: string, ad: Ad)
    decreases v
  {
    key in v.index && v.spec.fits(ad) ==>
      Alone(v, key, ad) && forall i :: 0 <= i < |v.subs| ==> Harmless(v.subs[i], key, ad)
  }

  /** Which other members go when one is erased by value. */
  lemma {:induction false} AlikeOthers(list: seq<Member>, index: map<string, Member>, key: string, x: Member)
    requires Agrees(list, index) && key in index && x in list && x != index[key]
    ensures Alike(x, index[key]) <==> Untied(index[key].rank) && TypeNumber(x.rank) == TypeNumber(index[key].rank)
    ensures x.key != key && index[x.key] == x
  {
    AlikeExactly(x, index[key]);
    hide Alike;
    hide Ordered;
    hide KeysOnce;
  }

  lemma {:induction false} AlikeItself(m: Member)
    ensures Alike(m, m)
  {
    AlikeExactly(m, m);
    RankIsItself(m.rank);
  }

  lemma {:induction false} MovedAgrees(list: seq<Member>, index: map<string, Member>, key: string, m: Member)
    requires Agrees(list, index) && key in index && m.key == key
    requires
      || !Untied(index[key].rank)
      || forall k :: k in index && k != key ==> TypeNumber(index[k].rank) != TypeNumber(index[key].rank)
    ensures Agrees(InsertMember(EraseAlike(list, index[key]), m), index[key := m])
  {
    hide Ordered;
    hide KeysOnce;
    hide Alike;
    AlikeItself(index[key]);
    forall x | x in list && x != index[key] ensures !Alike(x, index[key]) { AlikeOthers(list, index, key, x); }
    KeptAgree(list, index, key);
    hide Agrees;
    InsertAgrees(EraseAlike(list, index[key]), index - {key}, m);
    assert (index - {key})[key := m] == index[key := m];
  }

  lemma {:induction false} MovedLoses(list: seq<Member>, index: map<string, Member>, key: string, m: Member, k: string)
    requires Agrees(list, index) && key in index && m.key == key && k in index && k != key
    requires Untied(index[key].rank) && TypeNumber(index[k].rank) == TypeNumber(index[key].rank)
    ensures !Agrees(InsertMember(EraseAlike(list, index[key]), m), index[key := m])
  {
    var x := index[k];
    assert x in list && x.key == k && index[key].key == key;
    AlikeOthers(list, index, key, x);
    hide Alike;
    hide Ordered;
    hide KeysOnce;
    assert x !in InsertMember(EraseAlike(list, index[key]), m);
    assert index[key := m][k] == x;
  }

  /** A boolean rank is looked for as an integer: its member stays, next to the new one. */
  lemma {:induction false} MovedTwice(list: seq<Member>, index: map<string, Member>, key: string, i: int, j: int)
    requires Agrees(list, index) && key in index && index[key].rank.Bool?
    ensures index[key].key == key
    ensures index[key] in InsertMember(EraseAlike(list, Member(key, Int(i))), Member(key, Int(j)))
    ensures !Agrees(InsertMember(EraseAlike(list, Member(key, Int(i))), Member(key, Int(j))),
      index[key := Member(key, Int(j))])
  {
    AlikeExactly(index[key], Member(key, Int(i)));
    assert index[key] in list && index[key].key == key;
    hide Alike;
    hide Ordered;
    hide KeysOnce;
  }

  /**
   The ordered list holds a key twice after its rank has changed from one truth
   value to the other.
   */
  lemma {:induction false} BooleanRankListedTwice(v: View, key: string, ad: Ad)
    requires Agrees(v.list, v.index) && key in v.index && v.index[key].rank.Bool?
    requires v.spec.rank(ad) == Bool(!v.index[key].rank.b)
    ensures v.index[key] in Reranked(v, key, ad).0
    ensures Member(key, Int(NumberOf(v.spec.rank(ad)))) in Reranked(v, key, ad).0
    ensures !KeysOnce(Reranked(v, key, ad).0)
  {
    hide *;
    MovedTwice(v.list, v.index, key, NumberOf(v.index[key].rank), NumberOf(v.spec.rank(ad)));
    RerankedBoolean(v, key, ad);
    TwiceListed(Reranked(v, key, ad).0, v.index[key], Member(key, Int(NumberOf(v.spec.rank(ad)))));
  }

  lemma {:induction false} RerankedBoolean(v: View, key: string, ad: Ad)
    requires key in v.index && v.index[key].rank.Bool? && v.spec.rank(ad) == Bool(!v.index[key].rank.b)
    ensures Reranked(v, key, ad).0 ==
            InsertMember(EraseAlike(v.list, Member(key, Int(NumberOf(v.index[key].rank)))),
                         Member(key, Int(NumberOf(v.spec.rank(ad)))))
  {
    hide EraseAlike;
    hide InsertMember;
    assert !SameRank(v.spec.rank(ad), v.index[key].rank);
  }

  lemma {:induction false} TwiceListed(list: seq<Member>, a: Member, b: Member)
    requires a in list && b in list && a != b && a.key == b.key
    ensures !KeysOnce(list)
  {
    var i :| 0 <= i < |list| && list[i] == a;
    var j :| 0 <= j < |list| && list[j] == b;
    assert list[i].key == list[j].key;
  }

  /** Moving a member keeps list and index together exactly when it alone is found and erased. */
  lemma {:induction false} RerankAgrees(v: View, key: string, ad: Ad)
    requires Agrees(v.list, v.index) && key in v.index
    ensures Agrees(Reranked(v, key, ad).0, Reranked(v, key, ad).1) <==> Alone(v, key, ad)
  {
    var was, rank := v.index[key].rank, v.spec.rank(ad);
    var m := Member(key, Promoted(rank, was));
    assert v.index[key] == Member(key, was);
    hide Agrees;
    hide SameRank;
    if !SameRank(rank, was) {
      if was.Bool? && IsNumber(rank) {
        MovedTwice(v.list, v.index, key, NumberOf(was), NumberOf(rank));
      } else {
        assert Promoted(was, rank) == was;
        if Alone(v, key, ad) {
          MovedAgrees(v.list, v.index, key, m);
        } else {
          var k :| k in v.index && k != key && TypeNumber(v.index[k].rank) == TypeNumber(was);
          MovedLoses(v.list, v.index, key, m, k);
        }
      }
    }
  }

  lemma {:induction false} RankIsItself(v: Value)
    ensures RankCompare(v, v) == 0
  {
    if v.Str? { CompareFlips(Lower(v.s), Lower(v.s)); }
  }

  lemma {:induction false} KeptAgree(list: seq<Member>, index: map<string, Member>, key: string)
    requires Agrees(list, index) && key in index && Alike(index[key], index[key])
    requires forall x :: x in list && x != index[key] ==> !Alike(x, index[key])
    ensures Agrees(EraseAlike(list, index[key]), index - {key})
  {
    hide Alike;
    hide Ordered;
    hide KeysOnce;
    var kept, left := EraseAlike(list, index[key]), index - {key};
    EraseAlikeKeepsOrder(list, index[key]);
    EraseAlikeKeepsKeys(list, index[key]);
    hide EraseAlike;
    forall m | m in kept ensures m.key in left && left[m.key] == m { assert m in list && m != index[key]; }
    forall k | k in left ensures left[k].key == k && left[k] in kept { assert index[k] in list; }
  }

  lemma {:induction false} ModifyTidyHere(v: View, key: string, ad: Ad)
    requires Tidy(v) && key in v.index && v.spec.fits(ad)
    requires forall i :: 0 <= i < |v.subs| ==> (Tidy(Modified(v.subs[i], key, ad)) <==> Harmless(v.subs[i], key, ad))
    ensures Tidy(Modified(v, key, ad)) <==> Harmless(v, key, ad)
  {
    RerankAgrees(v, key, ad);
    var w := Modified(v, key, ad);
    assert (w.list, w.index) == Reranked(v, key, ad);
    assert forall i :: 0 <= i < |w.subs| ==> w.subs[i] == Modified(v.subs[i], key, ad);
    assert |w.subs| == |v.subs|;
    hide Agrees;
    hide Reranked;
    hide Alone;
    hide Modified;
  }

  /**
   A modification leaves every list and index of the tree in agreement exactly
   when every view finds the member that moves and erases it alone.
   */
  lemma {:induction false} ModifyTidy(v: View, t: Table, key: string, ad: Ad)
    requires Tidy(v) && Exact(v, t) && key in t
    ensures Tidy(Modified(v, key, ad)) <==> Harmless(v, key, ad)
    decreases v
  {
    assert Holds(v, t);
    hide Agrees;
    hide SameRank;
    if key in v.index && v.spec.fits(ad) {
      forall i | 0 <= i < |v.subs| ensures Tidy(Modified(v.subs[i], key, ad)) <==> Harmless(v.subs[i], key, ad) {
        assert Tidy(v.subs[i]) && Exact(v.subs[i], Visible(v, t));
        ModifyTidy(v.subs[i], Visible(v, t), key, ad);
      }
      hide *;
      ModifyTidyHere(v, key, ad);
    } else if key in v.index {
      DeleteTidy(v, key);
    } else if v.spec.fits(ad) {
      UnseenExact(v, t, key);
      InsertTidy(v, t - {key}, key, ad);
    }
  }
}
