/** The order of the members of a view, and what erasing a member by value removes. */
module ViewOrder {
  import opened Values

  datatype Member = Member(key: string, rank: Value)

  /** The numbers behind `Value::ValueType`. */
  function TypeNumber(v: Value): nat {
    match v
    case Error => 1
    case Undefined => 2
    case Bool(_) => 4
    case Int(_) => 8
    case Str(_) => 128
  }

  /** `operator<` on view members: by rank, and by key between equal ranks. */
  predicate Less(a: Member, b: Member) {
    if TypeNumber(a.rank) != TypeNumber(b.rank) then TypeNumber(a.rank) < TypeNumber(b.rank)
    else if DoOperation(Eq, a.rank, b.rank) == Bool(true) then CompareStrings(a.key, b.key) < 0
    else DoOperation(Lt, a.rank, b.rank) == Bool(true)
  }

  /** Neither is less: the two are one element to an ordered container. */
  predicate Alike(a: Member, b: Member) {
    !Less(a, b) && !Less(b, a)
  }

  /** Ranks that compare equal to nothing, not even to themselves. */
  predicate Untied(v: Value) {
    v.Undefined? || v.Error?
  }

  // ---------- strings ----------

  lemma {:induction false} CompareFlips(a: string, b: string)
    ensures CompareStrings(a, b) == -CompareStrings(b, a)
    ensures CompareStrings(a, b) == 0 <==> a == b
    decreases |a|
  {
    if a != "" && b != "" && a[0] == b[0] {
      CompareFlips(a[1..], b[1..]);
      assert a == [a[0]] + a[1..] && b == [b[0]] + b[1..];
    }
  }

  lemma {:induction false} CompareChains(a: string, b: string, c: string)
    requires CompareStrings(a, b) <= 0 && CompareStrings(b, c) <= 0
    ensures CompareStrings(a, c) <= 0
    decreases |a|
  {
    if a != "" && b != "" && c != "" && a[0] == b[0] == c[0] { CompareChains(a[1..], b[1..], c[1..]); }
  }

  // ---------- a strict weak order ----------

  /** The place of a rank among ranks of its type, as two strings and a number would order it. */
  function RankCompare(v: Value, w: Value): int
    requires TypeNumber(v) == TypeNumber(w)
  {
    match v
    case Int(i) => i - w.i
    case Bool(b) => (if b then 1 else 0) - (if w.b then 1 else 0)
    case Str(s) => CompareStrings(Lower(s), Lower(w.s))
    case _ => 0
  }

  lemma RankCompareOrders(v: Value, w: Value)
    requires TypeNumber(v) == TypeNumber(w)
    ensures RankCompare(v, w) < 0 <==> RankCompare(w, v) > 0
    ensures RankCompare(v, w) == 0 <==> RankCompare(w, v) == 0
    ensures DoOperation(Lt, v, w) == Bool(true) <==> !Untied(v) && RankCompare(v, w) < 0
    ensures DoOperation(Eq, v, w) == Bool(true) <==> !Untied(v) && RankCompare(v, w) == 0
  {
    if v.Str? { CompareFlips(Lower(v.s), Lower(w.s)); }
  }

  lemma RankCompareChains(v: Value, w: Value, x: Value)
    requires TypeNumber(v) == TypeNumber(w) == TypeNumber(x)
    requires RankCompare(v, w) <= 0 && RankCompare(w, x) <= 0
    ensures RankCompare(v, x) <= 0
  {
    if v.Str? { CompareChains(Lower(v.s), Lower(w.s), Lower(x.s)); }
  }

  /** `Less` in terms of the comparisons above. */
  lemma LessMeans(a: Member, b: Member)
    ensures Less(a, b) <==>
            || TypeNumber(a.rank) < TypeNumber(b.rank)
            || (&& TypeNumber(a.rank) == TypeNumber(b.rank) && !Untied(a.rank)
                && (RankCompare(a.rank, b.rank) < 0
                    || (RankCompare(a.rank, b.rank) == 0 && CompareStrings(a.key, b.key) < 0)))
  {
    hide DoOperation;
    hide CompareStrings;
    if TypeNumber(a.rank) == TypeNumber(b.rank) {
      RankCompareOrders(a.rank, b.rank);
      hide RankCompare;
    }
  }

  /** Members are ordered by the kind of their rank: ERROR, UNDEFINED, booleans, integers, strings. */
  lemma KindsOrdered(a: Member, b: Member)
    ensures a.rank.Error? && !b.rank.Error? ==> Less(a, b)
    ensures a.rank.Undefined? && (b.rank.Bool? || b.rank.Int? || b.rank.Str?) ==> Less(a, b)
    ensures a.rank.Bool? && (b.rank.Int? || b.rank.Str?) ==> Less(a, b)
    ensures a.rank.Int? && b.rank.Str? ==> Less(a, b)
    ensures a.rank.Int? && b.rank.Int? && a.rank.i < b.rank.i ==> Less(a, b)
    ensures a.rank == Bool(false) && b.rank == Bool(true) ==> Less(a, b)
    ensures a.rank == b.rank && !Untied(a.rank) ==> (Less(a, b) <==> CompareStrings(a.key, b.key) < 0)
  {
    LessMeans(a, b);
    if a.rank == b.rank { RankCompareOrders(a.rank, b.rank); }
    hide Less;
    hide CompareStrings;
  }

  /** The order is a strict weak one, as an ordered container needs: asymmetric ... */
  lemma LessIsAsymmetric(a: Member, b: Member)
    requires Less(a, b)
    ensures !Less(b, a)
  {
    LessMeans(a, b);
    LessMeans(b, a);
    hide Less;
    if TypeNumber(a.rank) == TypeNumber(b.rank) {
      RankCompareOrders(a.rank, b.rank);
      CompareFlips(a.key, b.key);
    }
  }

  /** ... and with "not less" transitive. */
  lemma NotLessChains(a: Member, b: Member, c: Member)
    requires !Less(b, a) && !Less(c, b)
    ensures !Less(c, a)
  {
    LessMeans(b, a);
    LessMeans(c, b);
    LessMeans(c, a);
    hide Less;
    hide CompareStrings;
    if TypeNumber(a.rank) == TypeNumber(b.rank) == TypeNumber(c.rank) {
      RankCompareOrders(a.rank, b.rank);
      RankCompareOrders(b.rank, c.rank);
      RankCompareOrders(a.rank, c.rank);
      RankCompareChains(a.rank, b.rank, c.rank);
      if RankCompare(a.rank, c.rank) == 0 {
        RankCompareChains(c.rank, a.rank, b.rank);
        RankCompareChains(b.rank, c.rank, a.rank);
        CompareFlips(a.key, b.key);
        CompareFlips(b.key, c.key);
        CompareFlips(a.key, c.key);
        if CompareStrings(a.key, b.key) <= 0 && CompareStrings(b.key, c.key) <= 0 {
          CompareChains(a.key, b.key, c.key);
        }
      }
    }
  }

  /** Two members are one to the container exactly when they share key and rank, or an untied kind of rank. */
  lemma AlikeExactly(a: Member, b: Member)
    ensures Alike(a, b) <==>
            || (Untied(a.rank) && TypeNumber(a.rank) == TypeNumber(b.rank))
            || (a.key == b.key && TypeNumber(a.rank) == TypeNumber(b.rank) && RankCompare(a.rank, b.rank) == 0)
  {
    LessMeans(a, b);
    LessMeans(b, a);
    hide Less;
    if TypeNumber(a.rank) == TypeNumber(b.rank) {
      RankCompareOrders(a.rank, b.rank);
      CompareFlips(a.key, b.key);
      hide RankCompare;
      hide CompareStrings;
    }
  }

  // ---------- the ordered list ----------

  predicate Ordered(list: seq<Member>) {
    forall i, j :: 0 <= i < j < |list| ==> !Less(list[j], list[i])
  }

  /** `multiset::insert`: after every member that is not greater. */
  function InsertMember(list: seq<Member>, m: Member): (r: seq<Member>)
    ensures |r| == |list| + 1
    ensures forall x :: x in r <==> x in list || x == m
  {
    if list == [] then [m]
    else if Less(m, list[0]) then [m] + list
    else [list[0]] + InsertMember(list[1..], m)
  }

  /** `multiset::erase` by value: every member alike goes. */
  function EraseAlike(list: seq<Member>, m: Member): (r: seq<Member>)
    ensures forall x :: x in r <==> x in list && !Alike(x, m)
  {
    if list == [] then []
    else if Alike(list[0], m) then EraseAlike(list[1..], m)
    else [list[0]] + EraseAlike(list[1..], m)
  }

  /** `multiset::erase` at the place that the index holds. */
  function EraseOne(list: seq<Member>, m: Member): (r: seq<Member>)
    ensures forall x :: x in r ==> x in list
    ensures forall x :: x in list && x != m ==> x in r
  {
    if list == [] then []
    else if list[0] == m then list[1..]
    else [list[0]] + EraseOne(list[1..], m)
  }

  lemma {:induction false} InsertKeepsOrder(list: seq<Member>, m: Member)
    requires Ordered(list)
    ensures Ordered(InsertMember(list, m))
  {
    if list != [] {
      hide Less;
      if Less(m, list[0]) {
        LessIsAsymmetric(m, list[0]);
        forall j | 0 <= j < |list| ensures !Less(list[j], m) {
          if j > 0 { NotLessChains(m, list[0], list[j]); }
        }
      } else {
        var rest := InsertMember(list[1..], m);
        InsertKeepsOrder(list[1..], m);
        assert forall x :: x in list[1..] ==> !Less(x, list[0]);
        forall j | 0 <= j < |rest| ensures !Less(rest[j], list[0]) { assert rest[j] in rest; }
      }
    }
  }

  lemma OrderedFrom(x: Member, rest: seq<Member>)
    requires Ordered(rest) && forall y :: y in rest ==> !Less(y, x)
    ensures Ordered([x] + rest)
  {
    hide Less;
    assert forall j :: 0 <= j < |rest| ==> rest[j] in rest;
  }

  lemma OrderedTail(list: seq<Member>)
    requires Ordered(list) && list != []
    ensures Ordered(list[1..]) && forall y :: y in list[1..] ==> !Less(y, list[0])
  {
    hide Less;
  }

  lemma {:induction false} EraseAlikeKeepsOrder(list: seq<Member>, m: Member)
    requires Ordered(list)
    ensures Ordered(EraseAlike(list, m))
  {
    if list != [] {
      OrderedTail(list);
      EraseAlikeKeepsOrder(list[1..], m);
      hide Ordered;
      hide Less;
      if !Alike(list[0], m) { OrderedFrom(list[0], EraseAlike(list[1..], m)); }
    }
  }

  lemma {:induction false} EraseOneKeepsOrder(list: seq<Member>, m: Member)
    requires Ordered(list)
    ensures Ordered(EraseOne(list, m))
  {
    if list != [] {
      OrderedTail(list);
      EraseOneKeepsOrder(list[1..], m);
      hide Ordered;
      hide Less;
      if list[0] != m { OrderedFrom(list[0], EraseOne(list[1..], m)); }
    }
  }

  // ---------- keys held once ----------

  predicate KeysOnce(list: seq<Member>) {
    forall i, j :: 0 <= i < j < |list| ==> list[i].key != list[j].key
  }

  lemma {:induction false} InsertKeepsKeys(list: seq<Member>, m: Member)
    requires KeysOnce(list) && forall x :: x in list ==> x.key != m.key
    ensures KeysOnce(InsertMember(list, m))
  {
    if list != [] && !Less(m, list[0]) {
      hide Less;
      var rest := InsertMember(list[1..], m);
      InsertKeepsKeys(list[1..], m);
      assert forall x :: x in list[1..] ==> x.key != list[0].key;
      assert forall j :: 0 <= j < |rest| ==> rest[j] in rest;
    }
  }

  lemma KeysFrom(x: Member, rest: seq<Member>)
    requires KeysOnce(rest) && forall y :: y in rest ==> y.key != x.key
    ensures KeysOnce([x] + rest)
  {
    assert forall j :: 0 <= j < |rest| ==> rest[j] in rest;
  }

  lemma KeysTail(list: seq<Member>)
    requires KeysOnce(list) && list != []
    ensures KeysOnce(list[1..]) && forall y :: y in list[1..] ==> y.key != list[0].key
  {
  }

  lemma {:induction false} EraseAlikeKeepsKeys(list: seq<Member>, m: Member)
    requires KeysOnce(list)
    ensures KeysOnce(EraseAlike(list, m))
  {
    if list != [] {
      KeysTail(list);
      EraseAlikeKeepsKeys(list[1..], m);
      hide KeysOnce;
      hide Alike;
      if !Alike(list[0], m) { KeysFrom(list[0], EraseAlike(list[1..], m)); }
    }
  }

  lemma {:induction false} EraseOneKeepsKeys(list: seq<Member>, m: Member)
    requires KeysOnce(list)
    ensures KeysOnce(EraseOne(list, m)) && m !in EraseOne(list, m)
  {
    if list != [] {
      KeysTail(list);
      EraseOneKeepsKeys(list[1..], m);
      hide KeysOnce;
      if list[0] != m { KeysFrom(list[0], EraseOne(list[1..], m)); }
    }
  }
}
