/**
 The ad table of a collection, the operations played on it, and the commit of a
 transaction with its undo (cache off).
 */
module Transactions {
  import opened Values

  /** An ad: folded attribute names with the text of their expressions. */
  type Ad = map<string, string>

  type Table = map<string, Ad>

  /** The argument of `Modify`, in the context of the ad itself. */
  datatype Mod = Mod(replace: Option<Ad>, updates: Option<Ad>, deletes: set<string>)

  datatype Op = AddAd(ad: Ad) | UpdateAd(upd: Ad) | ModifyAd(m: Mod) | RemoveAd

  datatype Rec = Rec(key: string, op: Op)

  /**
   Whether the view tree refuses an ad: `v(key, None, ad)` on insertion and
   `v(key, Some(old), ad)` after a modification.
   */
  type Refusal = (string, Option<Ad>, Ad) -> bool

  function Get(t: Table, key: string): Option<Ad> {
    if key in t then Some(t[key]) else None
  }

  function ModifiedAd(ad: Ad, m: Mod): Ad {
    var replaced := if m.replace.Some? then m.replace.value else ad;
    var updated := if m.updates.Some? then replaced + m.updates.value else replaced;
    updated - m.deletes
  }

  function Changed(ad: Ad, op: Op): Ad
    requires op.UpdateAd? || op.ModifyAd?
  {
    if op.UpdateAd? then ad + op.upd else ModifiedAd(ad, op.m)
  }

  function Attribute(ad: Ad, name: string): Option<string> {
    if name in ad then Some(ad[name]) else None
  }

  /**
   What `Modify` makes of each attribute: a deleted one is gone, and otherwise an
   update decides, then a replacement, then the ad as it was.
   */
  lemma ModifyDecides(ad: Ad, m: Mod, name: string)
    ensures var was := Attribute(if m.replace.Some? then m.replace.value else ad, name);
      var now := Attribute(Changed(ad, ModifyAd(m)), name);
      && (name in m.deletes ==> now.None?)
      && (name !in m.deletes && m.updates.Some? && name in m.updates.value ==> now == Some(m.updates.value[name]))
      && (name !in m.deletes && (m.updates.None? || name !in m.updates.value) ==> now == was)
  {
  }

  /** What `Update` makes of each attribute. */
  lemma UpdateDecides(ad: Ad, upd: Ad, name: string)
    ensures Attribute(Changed(ad, UpdateAd(upd)), name) ==
      if name in upd then Some(upd[name]) else Attribute(ad, name)
  {
  }

  datatype Played = Played(ok: bool, table: Table)

  /**
   `PlayClassAdOp`.  A refused addition has already dropped the old ad, and a
   refused change has already been made in place.
   */
  function Play(v: Refusal, t: Table, r: Rec): Played {
    match r.op
    case AddAd(ad) =>
      if v(r.key, None, ad) then Played(false, t - {r.key}) else Played(true, t[r.key := ad])
    case RemoveAd => Played(r.key in t, t - {r.key})
    case _ =>
      if r.key !in t then Played(false, t)
      else
        var ad := Changed(t[r.key], r.op);
        Played(!v(r.key, Some(t[r.key]), ad), t[r.key := ad])
  }

  lemma PlayTouchesOneKey(v: Refusal, t: Table, r: Rec, key: string)
    requires key != r.key
    ensures Get(Play(v, t, r).table, key) == Get(t, key)
  {
  }

  /** How many records play before one fails. */
  function Plays(v: Refusal, t: Table, rs: seq<Rec>): (n: nat)
    ensures n <= |rs|
    decreases |rs|
  {
    if rs == [] || !Play(v, t, rs[0]).ok then 0 else 1 + Plays(v, Play(v, t, rs[0]).table, rs[1..])
  }

  /** The table after the first `n` records. */
  function After(v: Refusal, t: Table, rs: seq<Rec>, n: nat): Table
    requires n <= |rs|
    decreases |rs|
  {
    if n == 0 then t else After(v, Play(v, t, rs[0]).table, rs[1..], n - 1)
  }

  /** What each record saved before it was played. */
  function Backups(v: Refusal, t: Table, rs: seq<Rec>): (bs: seq<Option<Ad>>)
    ensures |bs| == |rs|
    decreases |rs|
  {
    if rs == [] then [] else [Get(t, rs[0].key)] + Backups(v, Play(v, t, rs[0]).table, rs[1..])
  }

  /** `Crashed`: the undo looks up an ad that is not there and uses it. */
  datatype Outcome = Committed(table: Table) | Aborted(table: Table) | Crashed

  /** Undo, first record first; stops where the views refuse a removed ad. */
  function Undo(v: Refusal, t: Table, rs: seq<Rec>, bs: seq<Option<Ad>>): Outcome
    requires |rs| == |bs|
    decreases |rs|
  {
    if rs == [] then Aborted(t)
    else
      var key, b := rs[0].key, bs[0];
      if rs[0].op.RemoveAd? then
        if b.None? then Undo(v, t, rs[1..], bs[1..])
        else if v(key, None, b.value) then Aborted(t)
        else Undo(v, t[key := b.value], rs[1..], bs[1..])
      else if key !in t then Crashed
      else if b.None? then Undo(v, t - {key}, rs[1..], bs[1..])
      else Undo(v, t[key := b.value], rs[1..], bs[1..])
  }

  /** `ServerTransaction::Commit` */
  function Commit(v: Refusal, t: Table, rs: seq<Rec>): Outcome {
    var n := Plays(v, t, rs);
    if n == |rs| then Committed(After(v, t, rs, n))
    else Undo(v, Play(v, After(v, t, rs, n), rs[n]).table, rs[..n], Backups(v, t, rs)[..n])
  }

  // ---------- playing ----------

  lemma {:induction false} AfterStep(v: Refusal, t: Table, rs: seq<Rec>, n: nat)
    requires n < |rs|
    ensures After(v, t, rs, n + 1) == Play(v, After(v, t, rs, n), rs[n]).table
    decreases |rs|
  {
    if n > 0 { AfterStep(v, Play(v, t, rs[0]).table, rs[1..], n - 1); }
  }

  lemma {:induction false} BackupIs(v: Refusal, t: Table, rs: seq<Rec>, i: nat)
    requires i < |rs|
    ensures Backups(v, t, rs)[i] == Get(After(v, t, rs, i), rs[i].key)
    decreases |rs|
  {
    if i > 0 { BackupIs(v, Play(v, t, rs[0]).table, rs[1..], i - 1); }
  }

  /** `n` is the first index whose record fails, or the end. */
  lemma {:induction false} PlaysUntil(v: Refusal, t: Table, rs: seq<Rec>, n: nat)
    requires n <= |rs|
    requires forall i :: 0 <= i < n ==> Play(v, After(v, t, rs, i), rs[i]).ok
    requires n < |rs| ==> !Play(v, After(v, t, rs, n), rs[n]).ok
    ensures Plays(v, t, rs) == n
    decreases |rs|
  {
    if n > 0 {
      assert Play(v, After(v, t, rs, 0), rs[0]).ok;
      var t1 := Play(v, t, rs[0]).table;
      forall i | 0 <= i < n - 1 ensures Play(v, After(v, t1, rs[1..], i), rs[1..][i]).ok {
        assert Play(v, After(v, t, rs, i + 1), rs[i + 1]).ok;
      }
      PlaysUntil(v, t1, rs[1..], n - 1);
    }
  }

  lemma {:induction false} PlaysOk(v: Refusal, t: Table, rs: seq<Rec>, i: nat)
    requires i < Plays(v, t, rs)
    ensures Play(v, After(v, t, rs, i), rs[i]).ok
    decreases |rs|
  {
    if i > 0 { PlaysOk(v, Play(v, t, rs[0]).table, rs[1..], i - 1); }
  }

  lemma {:induction false} UntouchedAfter(v: Refusal, t: Table, rs: seq<Rec>, n: nat, key: string)
    requires n <= |rs| && forall i :: 0 <= i < n ==> rs[i].key != key
    ensures Get(After(v, t, rs, n), key) == Get(t, key)
    decreases |rs|
  {
    if n > 0 {
      PlayTouchesOneKey(v, t, rs[0], key);
      UntouchedAfter(v, Play(v, t, rs[0]).table, rs[1..], n - 1, key);
    }
  }

  /** A committed transaction is its records played in order. */
  lemma {:induction false} CommitPlaysInOrder(v: Refusal, t: Table, rs: seq<Rec>)
    ensures Commit(v, t, rs).Committed? <==> forall i :: 0 <= i < |rs| ==> Play(v, After(v, t, rs, i), rs[i]).ok
    ensures Commit(v, t, rs).Committed? ==> Commit(v, t, rs).table == After(v, t, rs, |rs|)
  {
    var n := Plays(v, t, rs);
    if n < |rs| {
      UndoAborts(v, Play(v, After(v, t, rs, n), rs[n]).table, rs[..n], Backups(v, t, rs)[..n]);
      FirstFails(v, t, rs);
    } else {
      forall i | 0 <= i < |rs| ensures Play(v, After(v, t, rs, i), rs[i]).ok { PlaysOk(v, t, rs, i); }
    }
  }

  lemma {:induction false} UndoAborts(v: Refusal, t: Table, rs: seq<Rec>, bs: seq<Option<Ad>>)
    requires |rs| == |bs|
    ensures !Undo(v, t, rs, bs).Committed?
    decreases |rs|
  {
    if rs != [] {
      var key, b := rs[0].key, bs[0];
      UndoAborts(v, t, rs[1..], bs[1..]);
      UndoAborts(v, t - {key}, rs[1..], bs[1..]);
      if b.Some? { UndoAborts(v, t[key := b.value], rs[1..], bs[1..]); }
    }
  }

  lemma {:induction false} FirstFails(v: Refusal, t: Table, rs: seq<Rec>)
    requires Plays(v, t, rs) < |rs|
    ensures !Play(v, After(v, t, rs, Plays(v, t, rs)), rs[Plays(v, t, rs)]).ok
    decreases |rs|
  {
    if Play(v, t, rs[0]).ok { FirstFails(v, Play(v, t, rs[0]).table, rs[1..]); }
  }

  // ---------- what undo leaves, for any records ----------

  /** The last record of `rs` on `key`, or -1. */
  function LastOn(rs: seq<Rec>, key: string): (i: int)
    ensures -1 <= i < |rs|
    ensures i >= 0 ==> rs[i].key == key
    ensures forall j :: i < j < |rs| ==> rs[j].key != key
  {
    if rs == [] then -1
    else if rs[|rs| - 1].key == key then |rs| - 1
    else LastOn(rs[..|rs| - 1], key)
  }

  /** The views take every removed ad back. */
  predicate TakesBack(v: Refusal, rs: seq<Rec>, bs: seq<Option<Ad>>)
    requires |rs| == |bs|
  {
    forall i :: 0 <= i < |rs| && rs[i].op.RemoveAd? && bs[i].Some? ==> !v(rs[i].key, None, bs[i].value)
  }

  /** A removal that played had something to back up. */
  predicate RemovalsBackedUp(rs: seq<Rec>, bs: seq<Option<Ad>>)
    requires |rs| == |bs|
  {
    forall i :: 0 <= i < |rs| && rs[i].op.RemoveAd? ==> bs[i].Some?
  }

  /**
   Undo runs forwards, so each key ends with what its *last* record saved, not
   with what it held before the transaction.
   */
  lemma {:induction false} UndoLeaves(v: Refusal, t: Table, rs: seq<Rec>, bs: seq<Option<Ad>>, key: string)
    requires |rs| == |bs| && TakesBack(v, rs, bs) && RemovalsBackedUp(rs, bs)
    requires Undo(v, t, rs, bs).Aborted?
    ensures Get(Undo(v, t, rs, bs).table, key) == if LastOn(rs, key) < 0 then Get(t, key) else bs[LastOn(rs, key)]
    decreases |rs|
  {
    if rs != [] {
      var k, b := rs[0].key, bs[0];
      var t1 := if b.None? then t - {k} else t[k := b.value];
      assert !(rs[0].op.RemoveAd? && (b.None? || v(k, None, b.value)));
      var rs1, bs1 := rs[1..], bs[1..];
      assert forall i :: 0 <= i < |rs1| ==> rs1[i] == rs[i + 1] && bs1[i] == bs[i + 1];
      UndoLeaves(v, t1, rs1, bs1, key);
      LastOnTail(rs, key);
    }
  }

  lemma {:induction false} LastOnTail(rs: seq<Rec>, key: string)
    requires rs != []
    ensures LastOn(rs, key) ==
      if LastOn(rs[1..], key) >= 0 then LastOn(rs[1..], key) + 1 else if rs[0].key == key then 0 else -1
  {
    var i := LastOn(rs[1..], key);
    var j := LastOn(rs, key);
    assert forall k :: 0 <= k < |rs[1..]| ==> rs[1..][k] == rs[k + 1];
    assert i >= 0 ==> rs[i + 1].key == key;
    assert j > 0 ==> rs[1..][j - 1].key == key;
  }

  // ---------- atomicity ----------

  predicate DistinctKeys(rs: seq<Rec>) {
    forall i, j :: 0 <= i < j < |rs| ==> rs[i].key != rs[j].key
  }

  /** A played record on a key of its own finds its ad unless it removed it. */
  lemma PlayedPresent(v: Refusal, t: Table, r: Rec)
    requires Play(v, t, r).ok
    ensures r.op.RemoveAd? ==> r.key in t
    ensures !r.op.RemoveAd? ==> r.key in Play(v, t, r).table
  {
  }

  /**
   Undo restores `orig` when no key repeats: `t` differs from `orig` only at
   the keys still to be undone, where the backups are what `orig` holds.
   */
  lemma {:induction false} UndoRestores(v: Refusal, orig: Table, t: Table, rs: seq<Rec>, bs: seq<Option<Ad>>)
    requires |rs| == |bs| && DistinctKeys(rs)
    requires RemovalsBackedUp(rs, bs) && TakesBack(v, rs, bs)
    requires forall i :: 0 <= i < |rs| ==> bs[i] == Get(orig, rs[i].key) && (rs[i].op.RemoveAd? || rs[i].key in t)
    requires forall key :: (forall i :: 0 <= i < |rs| ==> rs[i].key != key) ==> Get(t, key) == Get(orig, key)
    ensures Undo(v, t, rs, bs) == Aborted(orig)
    decreases |rs|
  {
    if rs == [] {
      TablesEqual(t, orig);
    } else {
      var k, b := rs[0].key, bs[0];
      var t1 := if b.None? then t - {k} else t[k := b.value];
      var rs1, bs1 := rs[1..], bs[1..];
      assert forall i :: 0 <= i < |rs1| ==> rs1[i] == rs[i + 1] && bs1[i] == bs[i + 1];
      forall key | forall i :: 0 <= i < |rs1| ==> rs1[i].key != key ensures Get(t1, key) == Get(orig, key) {
        if key != k {
          assert forall i :: 0 <= i < |rs| ==> rs[i].key != key by {
            forall i | 0 <= i < |rs| ensures rs[i].key != key { if i > 0 { assert rs1[i - 1].key != key; } }
          }
        }
      }
      UndoRestores(v, orig, t1, rs1, bs1);
    }
  }

  lemma TablesEqual(a: Table, b: Table)
    requires forall key :: Get(a, key) == Get(b, key)
    ensures a == b
  {
    forall key ensures (key in a <==> key in b) && (key in a ==> a[key] == b[key]) {
      assert Get(a, key) == Get(b, key);
    }
  }

  /** What a failing record has done to the table before it fails. */
  lemma FailsCleanly(v: Refusal, t: Table, r: Rec)
    requires !Play(v, t, r).ok
    ensures Play(v, t, r).table == t <==>
            r.key !in t || ((r.op.UpdateAd? || r.op.ModifyAd?) && Changed(t[r.key], r.op) == t[r.key])
  {
    hide Changed;
    if r.key !in t { assert t - {r.key} == t; }
  }

  /** What the table holds at the key of record `i` when its turn to be undone comes. */
  function Standing(t: Table, rs: seq<Rec>, bs: seq<Option<Ad>>, i: nat): Option<Ad>
    requires |rs| == |bs| && i < |rs|
  {
    var j := LastOn(rs[..i], rs[i].key);
    if j < 0 then Get(t, rs[i].key) else bs[j]
  }

  predicate FindsAll(t: Table, rs: seq<Rec>, bs: seq<Option<Ad>>)
    requires |rs| == |bs|
  {
    forall i :: 0 <= i < |rs| && !rs[i].op.RemoveAd? ==> Standing(t, rs, bs, i).Some?
  }

  lemma StandingNext(t: Table, rs: seq<Rec>, bs: seq<Option<Ad>>, i: nat)
    requires |rs| == |bs| && i + 1 < |rs|
    ensures Standing(if bs[0].None? then t - {rs[0].key} else t[rs[0].key := bs[0].value], rs[1..], bs[1..], i)
         == Standing(t, rs, bs, i + 1)
  {
    LastOnTail(rs[..i + 1], rs[i + 1].key);
    assert rs[..i + 1][1..] == rs[1..][..i];
  }

  /** The undo crashes exactly when some record does not find the ad it has to put back or drop. */
  lemma {:induction false} UndoFindsAll(v: Refusal, t: Table, rs: seq<Rec>, bs: seq<Option<Ad>>)
    requires |rs| == |bs| && TakesBack(v, rs, bs) && RemovalsBackedUp(rs, bs)
    ensures Undo(v, t, rs, bs).Aborted? <==> FindsAll(t, rs, bs)
    decreases |rs|
  {
    if rs != [] {
      assert rs[..0] == [];
      assert Standing(t, rs, bs, 0) == Get(t, rs[0].key);
      var k, b := rs[0].key, bs[0];
      var t1 := if b.None? then t - {k} else t[k := b.value];
      var rs1, bs1 := rs[1..], bs[1..];
      assert forall i :: 0 <= i < |rs1| ==> rs1[i] == rs[i + 1] && bs1[i] == bs[i + 1];
      assert !(rs[0].op.RemoveAd? && (b.None? || v(k, None, b.value)));
      UndoFindsAll(v, t1, rs1, bs1);
      FindsAllNext(t, rs, bs);
    }
  }

  lemma {:induction false} FindsAllNext(t: Table, rs: seq<Rec>, bs: seq<Option<Ad>>)
    requires |rs| == |bs| && rs != []
    ensures FindsAll(t, rs, bs) <==>
            && (rs[0].op.RemoveAd? || rs[0].key in t)
            && FindsAll(if bs[0].None? then t - {rs[0].key} else t[rs[0].key := bs[0].value], rs[1..], bs[1..])
  {
    hide Standing;
    var t1 := if bs[0].None? then t - {rs[0].key} else t[rs[0].key := bs[0].value];
    assert Standing(t, rs, bs, 0) == Get(t, rs[0].key) by { StandingFirst(t, rs, bs); }
    forall i | 0 <= i < |rs| - 1 ensures Standing(t1, rs[1..], bs[1..], i) == Standing(t, rs, bs, i + 1) {
      StandingNext(t, rs, bs, i);
    }
    if FindsAll(t1, rs[1..], bs[1..]) && (rs[0].op.RemoveAd? || rs[0].key in t) {
      forall i | 0 <= i < |rs| && !rs[i].op.RemoveAd? ensures Standing(t, rs, bs, i).Some? {
        if i > 0 { assert rs[1..][i - 1] == rs[i] && Standing(t1, rs[1..], bs[1..], i - 1).Some?; }
      }
    }
  }

  lemma StandingFirst(t: Table, rs: seq<Rec>, bs: seq<Option<Ad>>)
    requires |rs| == |bs| && rs != []
    ensures Standing(t, rs, bs, 0) == Get(t, rs[0].key)
  {
    assert rs[..0] == [];
  }

  lemma {:induction false} RemovalsHaveBackups(v: Refusal, t: Table, rs: seq<Rec>, n: nat)
    requires n == Plays(v, t, rs)
    ensures RemovalsBackedUp(rs[..n], Backups(v, t, rs)[..n])
  {
    forall i | 0 <= i < n && rs[i].op.RemoveAd? ensures Backups(v, t, rs)[i].Some? {
      PlaysOk(v, t, rs, i);
      BackupIs(v, t, rs, i);
    }
  }

  /**
   A failed commit leaves the table as it was exactly when every record finds
   its ad again and every key ends with what it held before the transaction.
   */
  lemma {:induction false} AtomicExactly(v: Refusal, t: Table, rs: seq<Rec>)
    requires Plays(v, t, rs) < |rs|
    requires TakesBack(v, rs[..Plays(v, t, rs)], Backups(v, t, rs)[..Plays(v, t, rs)])
    ensures var n := Plays(v, t, rs);
            var failed := Play(v, After(v, t, rs, n), rs[n]).table;
            var bs := Backups(v, t, rs)[..n];
            Commit(v, t, rs) == Aborted(t) <==>
            && FindsAll(failed, rs[..n], bs)
            && forall key ::
                 Get(t, key) == if LastOn(rs[..n], key) < 0 then Get(failed, key) else bs[LastOn(rs[..n], key)]
  {
    var n := Plays(v, t, rs);
    var failed := Play(v, After(v, t, rs, n), rs[n]).table;
    var bs := Backups(v, t, rs)[..n];
    RemovalsHaveBackups(v, t, rs, n);
    UndoFindsAll(v, failed, rs[..n], bs);
    var out := Commit(v, t, rs);
    if out.Aborted? {
      forall key
        ensures Get(out.table, key) == if LastOn(rs[..n], key) < 0 then Get(failed, key) else bs[LastOn(rs[..n], key)]
      {
        UndoLeaves(v, failed, rs[..n], bs, key);
      }
      hide Get;
      if forall key :: Get(t, key) == if LastOn(rs[..n], key) < 0 then Get(failed, key) else bs[LastOn(rs[..n], key)] {
        assert forall key :: Get(out.table, key) == Get(t, key);
        TablesEqual(out.table, t);
      }
    }
    UndoAborts(v, failed, rs[..n], bs);
  }

  lemma {:induction false} UntouchedBetween(v: Refusal, t: Table, rs: seq<Rec>, i: nat, n: nat, key: string)
    requires i <= n <= |rs| && forall j :: i <= j < n ==> rs[j].key != key
    ensures Get(After(v, t, rs, n), key) == Get(After(v, t, rs, i), key)
    decreases n
  {
    if i < n {
      AfterStep(v, t, rs, n - 1);
      PlayTouchesOneKey(v, After(v, t, rs, n - 1), rs[n - 1], key);
      UntouchedBetween(v, t, rs, i, n - 1, key);
    }
  }

  /** Record `i` of a transaction without repeated keys saved what the table held at the start. */
  lemma BackupOfDistinct(v: Refusal, t: Table, rs: seq<Rec>, n: nat, i: nat)
    requires i < n == Plays(v, t, rs) && DistinctKeys(rs[..n])
    ensures Backups(v, t, rs)[i] == Get(t, rs[i].key)
    ensures rs[i].key in After(v, t, rs, n) <==> !rs[i].op.RemoveAd?
  {
    BackupIs(v, t, rs, i);
    PlaysOk(v, t, rs, i);
    AfterStep(v, t, rs, i);
    forall j | 0 <= j < n && j != i ensures rs[j].key != rs[i].key {
      assert rs[..n][i] == rs[i] && rs[..n][j] == rs[j];
    }
    UntouchedAfter(v, t, rs, i, rs[i].key);
    PlayedPresent(v, After(v, t, rs, i), rs[i]);
    UntouchedBetween(v, t, rs, i + 1, n, rs[i].key);
  }

  /** A refused removal stays removed: the undo gives up there. */
  lemma {:induction false} UndoStuck(v: Refusal, t: Table, rs: seq<Rec>, bs: seq<Option<Ad>>) returns (i: nat)
    requires |rs| == |bs| && DistinctKeys(rs) && RemovalsBackedUp(rs, bs) && !TakesBack(v, rs, bs)
    requires forall j :: 0 <= j < |rs| && rs[j].op.RemoveAd? ==> rs[j].key !in t
    requires Undo(v, t, rs, bs).Aborted?
    ensures i < |rs| && rs[i].op.RemoveAd? && rs[i].key !in Undo(v, t, rs, bs).table
    decreases |rs|
  {
    var k, b := rs[0].key, bs[0];
    if rs[0].op.RemoveAd? && v(k, None, b.value) {
      i := 0;
    } else {
      var t1 := if b.None? then t - {k} else t[k := b.value];
      var rs1, bs1 := rs[1..], bs[1..];
      assert forall j :: 0 <= j < |rs1| ==> rs1[j] == rs[j + 1] && bs1[j] == bs[j + 1];
      assert !TakesBack(v, rs1, bs1) by {
        var j :| 0 <= j < |rs| && rs[j].op.RemoveAd? && bs[j].Some? && v(rs[j].key, None, bs[j].value);
        assert rs1[j - 1] == rs[j];
      }
      i := UndoStuck(v, t1, rs1, bs1);
      i := i + 1;
    }
  }

  lemma {:induction false} DistinctRestores(v: Refusal, t: Table, rs: seq<Rec>)
    requires Plays(v, t, rs) < |rs| && DistinctKeys(rs[..Plays(v, t, rs)])
    requires TakesBack(v, rs[..Plays(v, t, rs)], Backups(v, t, rs)[..Plays(v, t, rs)])
    ensures var n := Plays(v, t, rs); Undo(v, After(v, t, rs, n), rs[..n], Backups(v, t, rs)[..n]) == Aborted(t)
  {
    var n := Plays(v, t, rs);
    RemovalsHaveBackups(v, t, rs, n);
    forall i | 0 <= i < n
      ensures Backups(v, t, rs)[i] == Get(t, rs[i].key) && (rs[i].op.RemoveAd? || rs[i].key in After(v, t, rs, n))
    {
      BackupOfDistinct(v, t, rs, n, i);
    }
    forall key | forall i :: 0 <= i < |rs[..n]| ==> rs[..n][i].key != key
      ensures Get(After(v, t, rs, n), key) == Get(t, key)
    {
      assert forall i :: 0 <= i < n ==> rs[i].key == rs[..n][i].key;
      UntouchedAfter(v, t, rs, n, key);
    }
    UndoRestores(v, t, After(v, t, rs, n), rs[..n], Backups(v, t, rs)[..n]);
  }

  /**
   All or nothing: a failed transaction over distinct keys leaves the table as
   it was exactly when its failing record failed before touching the table and
   the views take back every ad that an earlier record removed.
   */
  lemma {:induction false} DistinctAtomic(v: Refusal, t: Table, rs: seq<Rec>)
    requires Plays(v, t, rs) < |rs| && DistinctKeys(rs[..Plays(v, t, rs) + 1])
    ensures var n := Plays(v, t, rs);
            Commit(v, t, rs) == Aborted(t) <==>
            && Play(v, After(v, t, rs, n), rs[n]).table == After(v, t, rs, n)
            && TakesBack(v, rs[..n], Backups(v, t, rs)[..n])
  {
    var n := Plays(v, t, rs);
    var bs, before := Backups(v, t, rs)[..n], After(v, t, rs, n);
    var failed := Play(v, before, rs[n]).table;
    forall i, j | 0 <= i < j <= n ensures rs[i].key != rs[j].key {
      assert rs[..n + 1][i] == rs[i] && rs[..n + 1][j] == rs[j];
    }
    if !TakesBack(v, rs[..n], bs) {
      if Commit(v, t, rs) == Aborted(t) { StuckIsNotAtomic(v, t, rs); }
    } else if failed == before {
      DistinctRestores(v, t, rs);
    } else if Commit(v, t, rs) == Aborted(t) {
      MutationStays(v, t, rs);
    }
  }

  lemma {:induction false} StuckIsNotAtomic(v: Refusal, t: Table, rs: seq<Rec>)
    requires Plays(v, t, rs) < |rs|
    requires forall i, j :: 0 <= i < j <= Plays(v, t, rs) ==> rs[i].key != rs[j].key
    requires !TakesBack(v, rs[..Plays(v, t, rs)], Backups(v, t, rs)[..Plays(v, t, rs)])
    ensures Commit(v, t, rs) != Aborted(t)
  {
    var n := Plays(v, t, rs);
    var bs, before := Backups(v, t, rs)[..n], After(v, t, rs, n);
    var failed := Play(v, before, rs[n]).table;
    RemovalsHaveBackups(v, t, rs, n);
    forall j | 0 <= j < n && rs[j].op.RemoveAd? ensures rs[j].key !in failed {
      BackupOfDistinct(v, t, rs, n, j);
      PlayTouchesOneKey(v, before, rs[n], rs[j].key);
    }
    if Undo(v, failed, rs[..n], bs).Aborted? {
      var i := UndoStuck(v, failed, rs[..n], bs);
      BackupOfDistinct(v, t, rs, n, i);
    }
  }

  lemma {:induction false} MutationStays(v: Refusal, t: Table, rs: seq<Rec>)
    requires Plays(v, t, rs) < |rs|
    requires forall i, j :: 0 <= i < j <= Plays(v, t, rs) ==> rs[i].key != rs[j].key
    requires TakesBack(v, rs[..Plays(v, t, rs)], Backups(v, t, rs)[..Plays(v, t, rs)])
    requires Play(v, After(v, t, rs, Plays(v, t, rs)), rs[Plays(v, t, rs)]).table != After(v, t, rs, Plays(v, t, rs))
    ensures Commit(v, t, rs) != Aborted(t)
  {
    var n := Plays(v, t, rs);
    var before := After(v, t, rs, n);
    var failed := Play(v, before, rs[n]).table;
    if Commit(v, t, rs) == Aborted(t) {
      AtomicExactly(v, t, rs);
      var key := rs[n].key;
      assert LastOn(rs[..n], key) < 0;
      UntouchedAfter(v, t, rs, n, key);
      forall k ensures Get(failed, k) == Get(before, k) {
        if k != key { PlayTouchesOneKey(v, before, rs[n], k); }
      }
      TablesEqual(failed, before);
    }
  }

  /** With a repeated key the undo can miss its ad: add, remove, then a failing record. */
  lemma RepeatedKeyCrashes(v: Refusal, t: Table, key: string, ad: Ad)
    requires key !in t && !v(key, None, ad)
    ensures Commit(v, t, [Rec(key, AddAd(ad)), Rec(key, RemoveAd), Rec(key, RemoveAd)]) == Crashed
  {
    var rs := [Rec(key, AddAd(ad)), Rec(key, RemoveAd), Rec(key, RemoveAd)];
    var t1 := t[key := ad];
    assert Play(v, t, rs[0]) == Played(true, t1);
    assert Play(v, t1, rs[1]) == Played(true, t1 - {key});
    assert rs[1..][0] == rs[1] && rs[1..][1..] == [rs[2]];
    assert Plays(v, t1 - {key}, [rs[2]]) == 0;
    assert Plays(v, t1, rs[1..]) == 1 && Plays(v, t, rs) == 2;
    assert rs[..2][0] == rs[0];
  }

  /** With a repeated key the undo can stop half way: two updates, then a failing record. */
  lemma RepeatedKeyHalfUndone(v: Refusal, t: Table, key: string, u1: Ad, u2: Ad, other: string)
    requires key in t && other !in t && !v(key, Some(t[key]), t[key] + u1)
    requires !v(key, Some(t[key] + u1), t[key] + u1 + u2)
    ensures Commit(v, t, [Rec(key, UpdateAd(u1)), Rec(key, UpdateAd(u2)), Rec(other, RemoveAd)]) ==
      Aborted(t[key := t[key] + u1])
  {
    var rs := [Rec(key, UpdateAd(u1)), Rec(key, UpdateAd(u2)), Rec(other, RemoveAd)];
    var t1 := t[key := t[key] + u1];
    var t2 := t[key := t[key] + u1 + u2];
    assert Play(v, t, rs[0]) == Played(true, t1);
    assert Play(v, t1, rs[1]) == Played(true, t2) by { assert t1[key := t[key] + u1 + u2] == t2; }
    assert Play(v, t2, rs[2]) == Played(false, t2) by { assert t2 - {other} == t2; }
    assert rs[1..][0] == rs[1] && rs[1..][1..] == [rs[2]];
    assert Plays(v, t2, [rs[2]]) == 0;
    assert Plays(v, t1, rs[1..]) == 1 && Plays(v, t, rs) == 2;
    assert After(v, t1, rs[1..], 1) == After(v, t2, [rs[2]], 0) == t2;
    assert After(v, t, rs, 2) == t2;
    var bs := Backups(v, t, rs);
    BackupIs(v, t, rs, 0);
    BackupIs(v, t, rs, 1);
    assert After(v, t, rs, 1) == t1 by { assert After(v, t1, rs[1..], 0) == t1; }
    assert bs[..2] == [Some(t[key]), Some(t[key] + u1)];
    assert rs[..2] == [rs[0], rs[1]];
    var restored := t2[key := t[key]];
    assert restored == t;
    assert Undo(v, t, [rs[1]], [bs[1]]) == Undo(v, t1, [], []);
    assert rs[..2][1..] == [rs[1]] && bs[..2][1..] == [bs[1]];
  }
}
