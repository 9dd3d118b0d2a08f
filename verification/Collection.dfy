/** `ClassAdCollection` as it runs: one object whose table, transactions and log its methods update. */
module Collection {
  import opened Values
  import opened Transactions
  import opened Recovery

  class ClassAdCollection {
    const v: Refusal
    var table: Table
    var xactions: Xactions
    var current: string
    var log: seq<LogRec>

    function State(): Coll
      reads this
    {
      Coll(table, xactions, current, log)
    }

    constructor (refuses: Refusal)
      ensures v == refuses && State() == Coll(map[], map[], "", [])
    {
      v := refuses;
      table, xactions, current, log := map[], map[], "", [];
    }

    method PlayClassAdOp(r: Rec) returns (ok: bool)
      modifies this`table
      ensures Played(ok, table) == Play(v, old(table), r)
    {
      match r.op
      case AddAd(ad) =>
        if r.key in table { table := table - {r.key}; }
        if v(r.key, None, ad) {
          assert table == old(table) - {r.key};
          return false;
        }
        table := table[r.key := ad];
        assert table == old(table)[r.key := ad];
        ok := true;
      case RemoveAd =>
        ok := r.key in table;
        table := table - {r.key};
      case _ =>
        if r.key !in table { return false; }
        var was := table[r.key];
        table := table[r.key := Changed(was, r.op)];
        ok := !v(r.key, Some(was), table[r.key]);
    }

    /** Plays the records, saving what each will overwrite, up to the first that fails. */
    method PlayAll(rs: seq<Rec>) returns (n: nat, bs: seq<Option<Ad>>)
      modifies this`table
      ensures n == Plays(v, old(table), rs) && bs == Backups(v, old(table), rs)[..n]
      ensures table ==
        if n == |rs| then After(v, old(table), rs, n) else Play(v, After(v, old(table), rs, n), rs[n]).table
    {
      n, bs := 0, [];
      hide Play;
      while n < |rs|
        invariant n <= |rs| && |bs| == n && table == After(v, old(table), rs, n)
        invariant forall i :: 0 <= i < n ==> Play(v, After(v, old(table), rs, i), rs[i]).ok
        invariant forall i :: 0 <= i < n ==> bs[i] == Get(After(v, old(table), rs, i), rs[i].key)
        decreases |rs| - n
      {
        var b := Get(table, rs[n].key);
        var ok := PlayClassAdOp(rs[n]);
        if !ok { break; }
        AfterStep(v, old(table), rs, n);
        n, bs := n + 1, bs + [b];
      }
      PlaysUntil(v, old(table), rs, n);
      forall i | 0 <= i < n ensures bs[i] == Backups(v, old(table), rs)[i] { BackupIs(v, old(table), rs, i); }
    }

    /** Undoes the first records; stops where the views refuse a removed ad. */
    method UndoAll(rs: seq<Rec>, bs: seq<Option<Ad>>)
      requires |rs| == |bs| && !Undo(v, table, rs, bs).Crashed?
      modifies this`table
      ensures Aborted(table) == Undo(v, old(table), rs, bs)
    {
      var i := 0;
      assert rs[0..] == rs && bs[0..] == bs;
      while i < |rs|
        invariant i <= |rs| && Undo(v, table, rs[i..], bs[i..]) == Undo(v, old(table), rs, bs)
        decreases |rs| - i
      {
        var key, b := rs[i].key, bs[i];
        assert rs[i..][1..] == rs[i + 1..] && bs[i..][1..] == bs[i + 1..];
        if rs[i].op.RemoveAd? {
          if b.Some? {
            if v(key, None, b.value) { return; }
            table := table[key := b.value];
          }
        } else if b.None? {
          table := table - {key};
        } else {
          table := table[key := b.value];
        }
        i := i + 1;
      }
      UndoAborts(v, old(table), rs, bs);
    }

    method CommitRecords(rs: seq<Rec>) returns (ok: bool)
      requires !Commit(v, table, rs).Crashed?
      modifies this`table
      ensures Commit(v, old(table), rs) == if ok then Committed(table) else Aborted(table)
    {
      var n, bs := PlayAll(rs);
      ok := n == |rs|;
      if !ok { UndoAll(rs[..n], bs); }
    }

    method LogTransaction(name: string, rs: seq<Rec>)
      modifies this`log
      ensures log == old(log) + XactionLog(name, rs)
    {
      log := log + [Open(name)];
      var i := 0;
      while i < |rs|
        invariant i <= |rs| && log == old(log) + [Open(name)] + Writes(name, rs)[..i]
        decreases |rs| - i
      {
        log := log + [Write(name, rs[i])];
        i := i + 1;
      }
      log := log + [CommitRec(name)];
      assert Writes(name, rs)[..i] == Writes(name, rs);
      assert log == old(log) + ([Open(name)] + Writes(name, rs) + [CommitRec(name)]);
    }

    /** The common start of the four operations inside a transaction. */
    method AppendToCurrent(r: Rec) returns (ok: bool)
      requires current != "" && Defined(v, State(), Operate(r))
      modifies this`xactions
      ensures State() == Step(v, old(State()), Operate(r)) && ok == (current in xactions)
    {
      ok := current in xactions;
      if ok { xactions := xactions[current := Some(xactions[current].value + [r])]; }
    }

    method AddClassAd(key: string, ad: Ad) returns (ok: bool)
      requires Defined(v, State(), Operate(Rec(key, AddAd(ad))))
      modifies this
      ensures State() == Step(v, old(State()), Operate(Rec(key, AddAd(ad))))
      ensures ok == if current != "" then current in xactions else !v(key, None, ad)
    {
      if current != "" {
        ok := AppendToCurrent(Rec(key, AddAd(ad)));
        return;
      }
      var was := Get(table, key);
      table := table - {key};
      if v(key, None, ad) {
        if was.Some? { table := table[key := was.value]; }
        assert table == old(table);
        return false;
      }
      table := table[key := ad];
      assert table == old(table)[key := ad];
      log := log + [Write("", Rec(key, AddAd(ad)))];
      ok := true;
    }

    /** `UpdateClassAd` and `ModifyClassAd` */
    method ChangeClassAd(key: string, op: Op) returns (ok: bool)
      requires (op.UpdateAd? || op.ModifyAd?) && Defined(v, State(), Operate(Rec(key, op)))
      modifies this
      ensures State() == Step(v, old(State()), Operate(Rec(key, op)))
      ensures ok == if current != "" then current in xactions
                    else key in old(table) && !v(key, Some(old(table)[key]), Changed(old(table)[key], op))
    {
      if current != "" {
        ok := AppendToCurrent(Rec(key, op));
        return;
      }
      if key !in table { return false; }
      var was := table[key];
      table := table[key := Changed(was, op)];
      if v(key, Some(was), table[key]) { return false; }
      log := log + [Write("", Rec(key, op))];
      ok := true;
    }

    method RemoveClassAd(key: string) returns (ok: bool)
      requires Defined(v, State(), Operate(Rec(key, RemoveAd)))
      modifies this
      ensures State() == Step(v, old(State()), Operate(Rec(key, RemoveAd)))
      ensures ok == (current != "" ==> current in xactions)
    {
      if current != "" {
        ok := AppendToCurrent(Rec(key, RemoveAd));
        return;
      }
      if key !in table { return true; }
      table := table - {key};
      log := log + [Write("", Rec(key, RemoveAd))];
      ok := true;
    }

    method OpenTransaction(name: string) returns (ok: bool)
      modifies this
      ensures State() == Step(v, old(State()), OpenXaction(name)) && ok == (name !in old(xactions))
    {
      ok := name !in xactions;
      if ok { xactions, current := xactions[name := Some([])], name; }
    }

    method CloseTransaction(name: string, commit: bool) returns (ok: bool)
      requires Defined(v, State(), CloseXaction(name, commit))
      modifies this
      ensures State() == Step(v, old(State()), CloseXaction(name, commit))
      ensures ok == (name in old(xactions) && (commit ==> Commit(v, old(table), old(xactions)[name].value).Committed?))
    {
      hide Commit;
      if name !in xactions { return false; }
      ok := true;
      if commit {
        var rs := xactions[name].value;
        ok := CommitRecords(rs);
        if ok { LogTransaction(name, rs); }
      }
      xactions := xactions - {name};
    }

    method SetCurrentTransaction(name: string) returns (ok: bool)
      modifies this
      ensures State() == Step(v, old(State()), SetCurrent(name))
      ensures ok == (name == "" || name in xactions)
    {
      ok := name == "" || name in xactions;
      if ok { current := name; }
    }

    /** One record of the log; a failed commit or a record for a finished transaction ends recovery. */
    method OperateInRecoveryMode(rec: LogRec) returns (ok: bool)
      requires rec.CommitRec? && rec.name in xactions && xactions[rec.name].Some? ==>
        !Commit(v, table, xactions[rec.name].value).Crashed?
      modifies this`table, this`xactions
      ensures RecoverOne(v, Recovered(old(table), old(xactions)), rec) ==
        if ok then Recovered(table, xactions) else Failed
    {
      hide Play;
      hide Commit;
      match rec
      case Open(name) =>
        ok := name !in xactions;
        if ok { xactions := xactions[name := Some([])]; }
      case CommitRec(name) =>
        if name !in xactions || xactions[name].None? { return false; }
        ok := CommitRecords(xactions[name].value);
        xactions := if ok then xactions[name := None] else xactions - {name};
      case Abort(name) =>
        ok := name in xactions;
        xactions := xactions - {name};
      case Forget(name) =>
        ok := name in xactions;
        xactions := xactions - {name};
      case Write(name, r) =>
        if name == "" {
          ok := PlayClassAdOp(r);
        } else {
          ok := name in xactions && xactions[name].Some?;
          if ok { xactions := xactions[name := Some(xactions[name].value + [r])]; }
        }
    }

    /** No record of the log crashes in an undo. */
    ghost predicate Replayable(rest: seq<LogRec>)
      reads this
    {
      forall i :: 0 <= i < |rest| && rest[i].CommitRec? ==>
        var s := Recover(v, Recovered(table, xactions), rest[..i]);
        s.Recovered? && rest[i].name in s.xactions && s.xactions[rest[i].name].Some? ==>
          !Commit(v, s.table, s.xactions[rest[i].name].value).Crashed?
    }

    method ReadLogFile(file: seq<LogRec>) returns (ok: bool)
      requires Replayable(file)
      modifies this`table, this`xactions
      ensures Recover(v, Recovered(old(table), old(xactions)), file) ==
        if ok then Recovered(table, xactions) else Failed
    {
      ghost var start := Recovered(table, xactions);
      var i := 0;
      while i < |file|
        invariant i <= |file| && Recover(v, start, file[..i]) == Recovered(table, xactions)
        decreases |file| - i
      {
        hide RecoverOne;
        assert file[..i + 1][..i] == file[..i];
        assert Recover(v, start, file[..i + 1]) == RecoverOne(v, Recover(v, start, file[..i]), file[i]);
        ok := OperateInRecoveryMode(file[i]);
        if !ok {
          assert file == file[..i + 1] + file[i + 1..];
          RecoverJoin(v, start, file[..i + 1], file[i + 1..]);
          RecoverFailed(v, file[i + 1..]);
          return;
        }
        i := i + 1;
      }
      assert file[..i] == file;
      ok := true;
    }
  }
}
