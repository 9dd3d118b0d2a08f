/**
 The log of a collection: what each call writes, what recovery makes of it, and
 how much of a run survives when the log is cut anywhere (cache off).
 */
module Recovery {
  import opened Values
  import opened Transactions

  /** `Write("", r)` is an operation outside transactions. */
  datatype LogRec =
    | Open(name: string)
    | Write(name: string, r: Rec)
    | CommitRec(name: string)
    | Abort(name: string)
    | Forget(name: string)

  /** Transactions by name; recovery leaves `None` for a committed one. */
  type Xactions = map<string, Option<seq<Rec>>>

  datatype Recovered = Failed | Recovered(table: Table, xactions: Xactions)

  // ---------- recovery ----------

  /** `OperateInRecoveryMode` with `PlayXactionOp` */
  function RecoverOne(v: Refusal, s: Recovered, rec: LogRec): Recovered {
    if s.Failed? then Failed
    else match rec
      case Open(name) =>
        if name in s.xactions then Failed else s.(xactions := s.xactions[name := Some([])])
      case CommitRec(name) =>
        if name !in s.xactions || s.xactions[name].None? then Failed
        else
          var out := Commit(v, s.table, s.xactions[name].value);
          if out.Committed? then Recovered(out.table, s.xactions[name := None]) else Failed
      case Abort(name) => if name in s.xactions then s.(xactions := s.xactions - {name}) else Failed
      case Forget(name) => if name in s.xactions then s.(xactions := s.xactions - {name}) else Failed
      case Write(name, r) =>
        if name == "" then
          var p := Play(v, s.table, r);
          if p.ok then s.(table := p.table) else Failed
        else if name !in s.xactions || s.xactions[name].None? then Failed
        else s.(xactions := s.xactions[name := Some(s.xactions[name].value + [r])])
  }

  /** `ReadLogFile` */
  function Recover(v: Refusal, s: Recovered, log: seq<LogRec>): Recovered
    decreases |log|
  {
    if log == [] then s else RecoverOne(v, Recover(v, s, log[..|log| - 1]), log[|log| - 1])
  }

  const EMPTY := Recovered(map[], map[])

  lemma {:induction false} RecoverJoin(v: Refusal, s: Recovered, a: seq<LogRec>, b: seq<LogRec>)
    ensures Recover(v, s, a + b) == Recover(v, Recover(v, s, a), b)
    decreases |b|
  {
    if b == [] {
      assert a + b == a;
    } else {
      var n := |b| - 1;
      assert (a + b)[..|a| + n] == a + b[..n];
      RecoverJoin(v, s, a, b[..n]);
    }
  }

  lemma {:induction false} RecoverFailed(v: Refusal, log: seq<LogRec>)
    ensures Recover(v, Failed, log) == Failed
    decreases |log|
  {
    if log != [] { RecoverFailed(v, log[..|log| - 1]); }
  }

  // ---------- the collection while it runs ----------

  datatype Coll = Coll(table: Table, xactions: Xactions, current: string, log: seq<LogRec>)

  datatype Call =
    | Operate(r: Rec)               // AddClassAd, UpdateClassAd, ModifyClassAd, RemoveClassAd
    | OpenXaction(name: string)
    | CloseXaction(name: string, commit: bool)
    | SetCurrent(name: string)

  function Writes(name: string, rs: seq<Rec>): (log: seq<LogRec>)
    ensures |log| == |rs|
    ensures forall i :: 0 <= i < |rs| ==> log[i] == Write(name, rs[i])
  {
    if rs == [] then [] else Writes(name, rs[..|rs| - 1]) + [Write(name, rs[|rs| - 1])]
  }

  /** `ServerTransaction::Log` */
  function XactionLog(name: string, rs: seq<Rec>): seq<LogRec> {
    [Open(name)] + Writes(name, rs) + [CommitRec(name)]
  }

  /** An operation outside transactions; only what succeeded is logged. */
  function Direct(v: Refusal, s: Coll, r: Rec): Coll {
    match r.op
    case AddAd(ad) =>
      if v(r.key, None, ad) then s
      else s.(table := s.table[r.key := ad], log := s.log + [Write("", r)])
    case RemoveAd =>
      if r.key !in s.table then s
      else s.(table := s.table - {r.key}, log := s.log + [Write("", r)])
    case _ =>
      if r.key !in s.table then s
      else
        var ad := Changed(s.table[r.key], r.op);
        var changed := s.(table := s.table[r.key := ad]);
        if v(r.key, Some(s.table[r.key]), ad) then changed else changed.(log := s.log + [Write("", r)])
  }

  /** The call does not use a transaction that recovery left as already committed, nor crashes in an undo. */
  predicate Defined(v: Refusal, s: Coll, c: Call) {
    match c
    case Operate(_) => s.current != "" && s.current in s.xactions ==> s.xactions[s.current].Some?
    case CloseXaction(name, commit) =>
      commit && name in s.xactions ==> s.xactions[name].Some? && !Commit(v, s.table, s.xactions[name].value).Crashed?
    case _ => true
  }

  function Step(v: Refusal, s: Coll, c: Call): Coll
    requires Defined(v, s, c)
  {
    match c
    case Operate(r) =>
      if s.current == "" then Direct(v, s, r)
      else if s.current !in s.xactions then s
      else s.(xactions := s.xactions[s.current := Some(s.xactions[s.current].value + [r])])
    case OpenXaction(name) =>
      if name in s.xactions then s
      else s.(xactions := s.xactions[name := Some([])], current := name)
    case CloseXaction(name, commit) =>
      if name !in s.xactions then s
      else if !commit then s.(xactions := s.xactions - {name})
      else
        var out := Commit(v, s.table, s.xactions[name].value);
        var log := if out.Committed? then s.log + XactionLog(name, s.xactions[name].value) else s.log;
        s.(table := out.table, xactions := s.xactions - {name}, log := log)
    case SetCurrent(name) => if name == "" || name in s.xactions then s.(current := name) else s
  }

  /** `ss` are the states of a run of `calls`. */
  predicate IsRun(v: Refusal, ss: seq<Coll>, calls: seq<Call>) {
    && |ss| == |calls| + 1
    && forall i :: 0 <= i < |calls| ==> Defined(v, ss[i], calls[i]) && ss[i + 1] == Step(v, ss[i], calls[i])
  }

  /** The records a call adds to the log. */
  function Added(v: Refusal, s: Coll, c: Call): seq<LogRec>
    requires Defined(v, s, c)
  {
    Step(v, s, c).log[|s.log|..]
  }

  lemma LogGrows(v: Refusal, s: Coll, c: Call)
    requires Defined(v, s, c)
    ensures Step(v, s, c).log == s.log + Added(v, s, c)
  {
    hide Commit;
    hide Changed;
    hide XactionLog;
  }

  /** The three things a call can add to the log. */
  lemma AddedIs(v: Refusal, s: Coll, c: Call)
    requires Defined(v, s, c)
    ensures
      || Added(v, s, c) == []
      || (c.Operate? && Added(v, s, c) == [Write("", c.r)] &&
        Play(v, s.table, c.r) == Played(true, Step(v, s, c).table))
      || (&& c.CloseXaction? && c.name in s.xactions && s.xactions[c.name].Some?
          && Added(v, s, c) == XactionLog(c.name, s.xactions[c.name].value)
          && Commit(v, s.table, s.xactions[c.name].value) == Committed(Step(v, s, c).table))
  {
    hide Commit;
    hide Changed;
    hide XactionLog;
    LogGrows(v, s, c);
  }

  // ---------- replaying what was logged ----------

  predicate NoEnds(log: seq<LogRec>) {
    forall i :: 0 <= i < |log| ==> !log[i].Abort? && !log[i].Forget?
  }

  /** Every transaction is opened under a name that was not there before. */
  predicate FreshOpens(xs: Xactions, log: seq<LogRec>) {
    forall i :: 0 <= i < |log| && log[i].Open? ==>
      log[i].name !in xs && forall j :: 0 <= j < i && log[j].Open? ==> log[j].name != log[i].name
  }

  predicate Opened(xs: Xactions, log: seq<LogRec>, name: string) {
    name in xs || exists i :: 0 <= i < |log| && log[i] == Open(name)
  }

  lemma NamesAfterOne(v: Refusal, s: Recovered, rec: LogRec)
    requires s.Recovered? && !rec.Abort? && !rec.Forget? && RecoverOne(v, s, rec).Recovered?
    ensures forall name :: name in RecoverOne(v, s, rec).xactions <==> name in s.xactions || rec == Open(name)
    ensures rec.Open? ==> rec.name !in s.xactions
  {
    hide Play;
    hide Commit;
  }

  lemma FreshNext(xs: Xactions, log: seq<LogRec>, n: nat)
    requires |log| == n + 1 && FreshOpens(xs, log[..n])
    requires log[n].Open? ==> !Opened(xs, log[..n], log[n].name)
    ensures FreshOpens(xs, log)
  {
    forall i | 0 <= i < |log| && log[i].Open?
      ensures log[i].name !in xs && forall j :: 0 <= j < i && log[j].Open? ==> log[j].name != log[i].name
    {
      assert forall j :: 0 <= j < n ==> log[..n][j] == log[j];
      if i < n { assert log[..n][i].Open?; }
    }
  }

  /** A log that can be replayed opened every transaction under a fresh name. */
  lemma {:induction false} RecoverOpens(v: Refusal, s: Recovered, log: seq<LogRec>)
    requires s.Recovered? && NoEnds(log) && Recover(v, s, log).Recovered?
    ensures FreshOpens(s.xactions, log)
    ensures forall name :: name in Recover(v, s, log).xactions <==> Opened(s.xactions, log, name)
    decreases |log|
  {
    if log != [] {
      var n := |log| - 1;
      assert RecoverOne(v, Recover(v, s, log[..n]), log[n]) == Recover(v, s, log);
      assert NoEnds(log[..n]) && !log[n].Abort? && !log[n].Forget?;
      RecoverOpens(v, s, log[..n]);
      NamesAfterOne(v, Recover(v, s, log[..n]), log[n]);
      hide *;
      FreshNext(s.xactions, log, n);
      forall name
        ensures Opened(s.xactions, log, name) <==> Opened(s.xactions, log[..n], name) || log[n] == Open(name)
      {
        OpenedNext(s.xactions, log, name);
      }
    }
  }

  lemma OpenedNext(xs: Xactions, log: seq<LogRec>, name: string)
    requires log != []
    ensures Opened(xs, log, name) <==> Opened(xs, log[..|log| - 1], name) || log[|log| - 1] == Open(name)
  {
    var n := |log| - 1;
    if i :| 0 <= i < |log| && log[i] == Open(name) {
      if i < n { assert log[..n][i] == Open(name); }
    }
  }

  /** Records never go into a transaction without a name. */
  predicate NamelessEmpty(xs: Xactions) {
    "" in xs && xs[""].Some? ==> xs[""].value == []
  }

  lemma {:induction false} RecoverNameless(v: Refusal, log: seq<LogRec>)
    ensures Recover(v, EMPTY, log).Recovered? ==> NamelessEmpty(Recover(v, EMPTY, log).xactions)
    decreases |log|
  {
    hide Play;
    hide Commit;
    if log != [] { RecoverNameless(v, log[..|log| - 1]); }
  }

  lemma WriteAppends(v: Refusal, s: Recovered, name: string, rs: seq<Rec>, r: Rec)
    requires s.Recovered? && name != "" && name in s.xactions && s.xactions[name] == Some(rs)
    ensures RecoverOne(v, s, Write(name, r)) == Recovered(s.table, s.xactions[name := Some(rs + [r])])
  {
  }

  lemma LastRecord(v: Refusal, s: Recovered, log: seq<LogRec>)
    requires log != []
    ensures Recover(v, s, log) == RecoverOne(v, Recover(v, s, log[..|log| - 1]), log[|log| - 1])
  {
    hide RecoverOne;
  }

  lemma WritesLast(name: string, rs: seq<Rec>)
    requires rs != []
    ensures var n, log := |rs| - 1, Writes(name, rs);
      |log| == n + 1 && log[..n] == Writes(name, rs[..n]) && log[n] == Write(name, rs[n])
  {
  }

  /** One more record of an open transaction. */
  lemma OneMoreWrite(v: Refusal, s: Recovered, name: string, rs: seq<Rec>, log: seq<LogRec>)
    requires s.Recovered? && name != "" && rs != [] && |log| == |rs| && log[|rs| - 1] == Write(name, rs[|rs| - 1])
    requires Recover(v, s, log[..|rs| - 1]) == Recovered(s.table, s.xactions[name := Some(rs[..|rs| - 1])])
    ensures Recover(v, s, log) == Recovered(s.table, s.xactions[name := Some(rs)])
  {
    hide *;
    var n := |rs| - 1;
    var most := s.xactions[name := Some(rs[..n])];
    LastRecord(v, s, log);
    WriteAppends(v, Recovered(s.table, most), name, rs[..n], rs[n]);
    assert rs[..n] + [rs[n]] == rs;
    assert most[name := Some(rs)] == s.xactions[name := Some(rs)];
  }

  lemma {:induction false} WritesReplay(v: Refusal, s: Recovered, name: string, rs: seq<Rec>)
    requires s.Recovered? && name != "" && name in s.xactions && s.xactions[name] == Some([])
    ensures Recover(v, s, Writes(name, rs)) == Recovered(s.table, s.xactions[name := Some(rs)])
    decreases |rs|
  {
    hide RecoverOne;
    if rs == [] {
      assert s.xactions[name := Some([])] == s.xactions;
    } else {
      hide Recover;
      hide Writes;
      WritesReplay(v, s, name, rs[..|rs| - 1]);
      WritesLast(name, rs);
      OneMoreWrite(v, s, name, rs, Writes(name, rs));
    }
  }

  lemma OneRecord(v: Refusal, s: Recovered, rec: LogRec)
    ensures Recover(v, s, [rec]) == RecoverOne(v, s, rec)
  {
    hide RecoverOne;
    assert [rec][..0] == [];
  }

  lemma WritesPrefix(name: string, rs: seq<Rec>, k: nat)
    requires k <= |rs|
    ensures XactionLog(name, rs)[..k + 1] == [Open(name)] + Writes(name, rs[..k])
  {
    assert Writes(name, rs)[..k] == Writes(name, rs[..k]);
  }

  /** The first records of a logged transaction do not touch the table. */
  lemma {:induction false} HalfLogged(v: Refusal, s: Recovered, name: string, rs: seq<Rec>, k: nat)
    requires s.Recovered? && name !in s.xactions && (name == "" ==> rs == []) && k <= |rs|
    ensures Recover(v, s, XactionLog(name, rs)[..k + 1]) == Recovered(s.table, s.xactions[name := Some(rs[..k])])
  {
    var begun := Recovered(s.table, s.xactions[name := Some([])]);
    assert RecoverOne(v, s, Open(name)) == begun;
    WritesPrefix(name, rs, k);
    RecoverJoin(v, s, [Open(name)], Writes(name, rs[..k]));
    OneRecord(v, s, Open(name));
    if name != "" {
      WritesReplay(v, begun, name, rs[..k]);
      hide *;
      assert begun.xactions[name := Some(rs[..k])] == s.xactions[name := Some(rs[..k])];
    } else {
      hide RecoverOne;
      assert rs[..k] == [];
    }
  }

  lemma {:induction false} WhollyLogged(v: Refusal, s: Recovered, name: string, rs: seq<Rec>)
    requires s.Recovered? && name !in s.xactions && (name == "" ==> rs == [])
    requires Commit(v, s.table, rs).Committed?
    ensures Recover(v, s, XactionLog(name, rs)).Recovered?
    ensures Recover(v, s, XactionLog(name, rs)).table == Commit(v, s.table, rs).table
  {
    hide Commit;
    var log := XactionLog(name, rs);
    HalfLogged(v, s, name, rs, |rs|);
    assert rs[..|rs|] == rs;
    assert log[..|log| - 1] == log[..|rs| + 1] && log[|log| - 1] == CommitRec(name);
  }

  // ---------- the theorem ----------

  /** The session begins with what recovery made of its log. */
  predicate Starts(v: Refusal, s: Coll) {
    Recover(v, EMPTY, s.log) == Recovered(s.table, s.xactions)
  }

  /** The calls before state `j` are those whose last record lies in the first `k` of the log. */
  predicate Settled(ss: seq<Coll>, j: nat, k: nat)
    requires j < |ss|
  {
    |ss[j].log| <= k && forall i :: j < i < |ss| ==> |ss[i].log| == |ss[j].log| || |ss[i].log| > k
  }

  /** Cutting the log anywhere recovers the table of the calls that were wholly logged. */
  predicate CrashSafe(v: Refusal, ss: seq<Coll>)
    requires ss != []
  {
    var log := ss[|ss| - 1].log;
    forall j: nat, k: nat :: j < |ss| && k <= |log| && Settled(ss, j, k) ==>
      Recover(v, EMPTY, log[..k]).Recovered? && Recover(v, EMPTY, log[..k]).table == ss[j].table
  }

  /** The call changed the table and logged nothing. */
  predicate Unlogged(v: Refusal, s: Coll, c: Call)
    requires Defined(v, s, c)
  {
    Step(v, s, c).log == s.log && Step(v, s, c).table != s.table
  }

  /** When that happens: a change the views refuse, or a failed commit that is not undone. */
  lemma UnloggedExactly(v: Refusal, s: Coll, c: Call)
    requires Defined(v, s, c)
    ensures Unlogged(v, s, c) <==>
            || (&& c.Operate? && s.current == "" && (c.r.op.UpdateAd? || c.r.op.ModifyAd?) && c.r.key in s.table
                && var ad := Changed(s.table[c.r.key], c.r.op);
                   v(c.r.key, Some(s.table[c.r.key]), ad) && ad != s.table[c.r.key])
            || (&& c.CloseXaction? && c.commit && c.name in s.xactions
                && Commit(v, s.table, s.xactions[c.name].value).Aborted?
                && Commit(v, s.table, s.xactions[c.name].value).table != s.table)
  {
    hide Commit;
    hide Changed;
  }

  lemma AddedEndsNothing(v: Refusal, s: Coll, c: Call)
    requires Defined(v, s, c)
    ensures NoEnds(Added(v, s, c))
  {
    AddedIs(v, s, c);
    hide Added;
  }

  lemma {:induction false} LogsGrow(v: Refusal, ss: seq<Coll>, calls: seq<Call>, i: nat, j: nat)
    requires IsRun(v, ss, calls) && i <= j < |ss|
    ensures |ss[i].log| <= |ss[j].log| && ss[j].log[..|ss[i].log|] == ss[i].log
    ensures NoEnds(ss[j].log[|ss[i].log|..])
    decreases j
  {
    if i < j {
      LogsGrow(v, ss, calls, i, j - 1);
      LogGrows(v, ss[j - 1], calls[j - 1]);
      AddedEndsNothing(v, ss[j - 1], calls[j - 1]);
      NoEndsJoin(ss[i].log, ss[j - 1].log, Added(v, ss[j - 1], calls[j - 1]));
      assert ss[j] == Step(v, ss[j - 1], calls[j - 1]);
      hide *;
    } else {
      hide Step;
      hide Defined;
    }
  }

  lemma NoEndsJoin(a: seq<LogRec>, b: seq<LogRec>, c: seq<LogRec>)
    requires |a| <= |b| && b[..|a|] == a && NoEnds(b[|a|..]) && NoEnds(c)
    ensures (b + c)[..|a|] == a && NoEnds((b + c)[|a|..])
  {
    assert (b + c)[..|a|] == b[..|a|];
    assert (b + c)[|a|..] == b[|a|..] + c;
  }

  lemma {:induction false} NamelessStays(v: Refusal, ss: seq<Coll>, calls: seq<Call>, i: nat)
    requires IsRun(v, ss, calls) && i < |ss| && NamelessEmpty(ss[0].xactions)
    ensures NamelessEmpty(ss[i].xactions)
  {
    if i > 0 {
      NamelessStays(v, ss, calls, i - 1);
      assert ss[i] == Step(v, ss[i - 1], calls[i - 1]);
      hide Commit;
      hide Play;
    }
  }

  /** Everything that a crash-safe run needs from its calls and its names. */
  predicate Careful(v: Refusal, ss: seq<Coll>, calls: seq<Call>)
    requires IsRun(v, ss, calls)
  {
    && (forall i :: 0 <= i < |calls| ==> !Unlogged(v, ss[i], calls[i]))
    && |ss[0].log| <= |ss[|calls|].log|
    && FreshOpens(ss[0].xactions, ss[|calls|].log[|ss[0].log|..])
  }

  lemma FreshAt(xs: Xactions, log: seq<LogRec>, p: nat, name: string)
    requires FreshOpens(xs, log) && p < |log| && log[p] == Open(name)
    ensures !Opened(xs, log[..p], name)
  {
  }

  /** A transaction about to be logged has a name that recovery has not seen. */
  lemma {:induction false} NameIsFresh(v: Refusal, ss: seq<Coll>, calls: seq<Call>, i: nat, name: string, rs: seq<Rec>)
    requires IsRun(v, ss, calls) && Starts(v, ss[0]) && Careful(v, ss, calls) && i < |calls|
    requires Recover(v, EMPTY, ss[i].log).Recovered?
    requires Added(v, ss[i], calls[i]) == XactionLog(name, rs)
    ensures name !in Recover(v, EMPTY, ss[i].log).xactions
  {
    var n, m := |ss[0].log|, |ss[i].log|;
    LogsGrow(v, ss, calls, 0, i);
    LogsGrow(v, ss, calls, i, |calls|);
    LogsGrow(v, ss, calls, i + 1, |calls|);
    LogGrows(v, ss[i], calls[i]);
    var log := ss[|calls|].log;
    hide *;
    assert log[m] == Open(name) by {
      assert ss[i + 1].log[m] == XactionLog(name, rs)[0];
      assert log[..|ss[i + 1].log|][m] == log[m];
      LogOpens(name, rs);
    }
    var early := ss[i].log[n..];
    assert log[n..][..m - n] == early;
    OpenedEarlier(v, ss[0], ss[i].log);
    CarefulNames(v, ss, calls);
    FreshAt(ss[0].xactions, log[n..], m - n, name);
  }

  lemma LogOpens(name: string, rs: seq<Rec>)
    ensures |XactionLog(name, rs)| > 0 && XactionLog(name, rs)[0] == Open(name)
  {
  }

  lemma CarefulNames(v: Refusal, ss: seq<Coll>, calls: seq<Call>)
    requires IsRun(v, ss, calls) && Careful(v, ss, calls)
    ensures |ss[0].log| <= |ss[|calls|].log|
    ensures FreshOpens(ss[0].xactions, ss[|calls|].log[|ss[0].log|..])
  {
    hide FreshOpens;
    hide Step;
    hide Defined;
  }

  /** The names in a recovered transaction table were there at the start or opened since. */
  lemma {:induction false} OpenedEarlier(v: Refusal, s: Coll, log: seq<LogRec>)
    requires Starts(v, s) && |s.log| <= |log| && log[..|s.log|] == s.log && NoEnds(log[|s.log|..])
    requires Recover(v, EMPTY, log).Recovered?
    ensures forall name :: name in Recover(v, EMPTY, log).xactions <==> Opened(s.xactions, log[|s.log|..], name)
  {
    var early := log[|s.log|..];
    assert log == s.log + early;
    RecoverJoin(v, EMPTY, s.log, early);
    hide Recover;
    RecoverOpens(v, Recovered(s.table, s.xactions), early);
  }

  /** Replaying what one call logged repeats the call. */
  lemma {:induction false} StepReplays(v: Refusal, s: Coll, c: Call, was: Recovered)
    requires Defined(v, s, c) && was.Recovered? && was.table == s.table && NamelessEmpty(s.xactions)
    requires !Unlogged(v, s, c)
    requires forall name, rs :: Added(v, s, c) == XactionLog(name, rs) ==> name !in was.xactions
    ensures Recover(v, was, Added(v, s, c)).Recovered?
    ensures Recover(v, was, Added(v, s, c)).table == Step(v, s, c).table
  {
    LogGrows(v, s, c);
    AddedIs(v, s, c);
    assert Added(v, s, c) == [] ==> Step(v, s, c).table == s.table by { assert s.log + [] == s.log; }
    hide Step;
    hide Added;
    hide Commit;
    hide Play;
    if Added(v, s, c) != [] {
      if c.Operate? {
        OneRecord(v, was, Write("", c.r));
      } else {
        WhollyLogged(v, was, c.name, s.xactions[c.name].value);
      }
    }
  }

  /** Replaying the log of any state gives its table. */
  lemma {:induction false} WholeLogReplays(v: Refusal, ss: seq<Coll>, calls: seq<Call>, i: nat)
    requires IsRun(v, ss, calls) && Starts(v, ss[0]) && Careful(v, ss, calls) && i < |ss|
    ensures Recover(v, EMPTY, ss[i].log).Recovered? && Recover(v, EMPTY, ss[i].log).table == ss[i].table
  {
    if i > 0 {
      WholeLogReplays(v, ss, calls, i - 1);
      var s, c := ss[i - 1], calls[i - 1];
      assert !Unlogged(v, s, c) && ss[i] == Step(v, s, c);
      LogGrows(v, s, c);
      RecoverJoin(v, EMPTY, s.log, Added(v, s, c));
      RecoverNameless(v, ss[0].log);
      NamelessStays(v, ss, calls, i - 1);
      forall name, rs | Added(v, s, c) == XactionLog(name, rs) ensures name !in Recover(v, EMPTY, s.log).xactions {
        NameIsFresh(v, ss, calls, i - 1, name, rs);
      }
      hide *;
      StepReplays(v, s, c, Recover(v, EMPTY, s.log));
    }
  }

  /** A log cut inside the records of one call replays to the table before that call. */
  lemma {:induction false} CutInside(v: Refusal, ss: seq<Coll>, calls: seq<Call>, i: nat, k: nat)
    requires IsRun(v, ss, calls) && Starts(v, ss[0]) && Careful(v, ss, calls) && i < |calls|
    requires |ss[i].log| < k < |ss[i + 1].log|
    ensures Recover(v, EMPTY, ss[i + 1].log[..k]).Recovered?
    ensures Recover(v, EMPTY, ss[i + 1].log[..k]).table == ss[i].table
  {
    WholeLogReplays(v, ss, calls, i);
    var s, c := ss[i], calls[i];
    var was := Recover(v, EMPTY, s.log);
    LogGrows(v, s, c);
    AddedIs(v, s, c);
    var p := k - |s.log|;
    assert ss[i + 1].log[..k] == s.log + Added(v, s, c)[..p];
    RecoverJoin(v, EMPTY, s.log, Added(v, s, c)[..p]);
    RecoverNameless(v, ss[0].log);
    NamelessStays(v, ss, calls, i);
    NameIsFresh(v, ss, calls, i, c.name, s.xactions[c.name].value);
    hide Recover;
    HalfLogged(v, was, c.name, s.xactions[c.name].value, p - 1);
  }

  /** The last state before the log grows past `k`. */
  lemma {:induction false} FindCut(v: Refusal, ss: seq<Coll>, calls: seq<Call>, j: nat, k: nat) returns (i: nat)
    requires IsRun(v, ss, calls) && j < |ss| && Settled(ss, j, k) && |ss[j].log| < k <= |ss[|calls|].log|
    ensures j <= i < |calls| && |ss[i].log| == |ss[j].log| && k < |ss[i + 1].log|
  {
    i := j;
    while |ss[i + 1].log| == |ss[j].log|
      invariant j <= i < |calls| && |ss[i].log| == |ss[j].log|
      decreases |calls| - i
    {
      i := i + 1;
    }
  }

  lemma {:induction false} CarefulIsSafe(v: Refusal, ss: seq<Coll>, calls: seq<Call>)
    requires IsRun(v, ss, calls) && Starts(v, ss[0]) && Careful(v, ss, calls)
    ensures CrashSafe(v, ss)
  {
    var log := ss[|calls|].log;
    forall j: nat, k: nat | j < |ss| && k <= |log| && Settled(ss, j, k)
      ensures Recover(v, EMPTY, log[..k]).Recovered? && Recover(v, EMPTY, log[..k]).table == ss[j].table
    {
      WholeLogReplays(v, ss, calls, j);
      LogsGrow(v, ss, calls, j, |calls|);
      if k > |ss[j].log| {
        var i := FindCut(v, ss, calls, j, k);
        LogsGrow(v, ss, calls, j, i);
        LogsGrow(v, ss, calls, i + 1, |calls|);
        WholeLogReplays(v, ss, calls, i);
        CutInside(v, ss, calls, i, k);
        hide Recover;
        assert ss[i].log == ss[j].log;
        assert log[..k] == ss[i + 1].log[..k];
      }
    }
  }

  lemma {:induction false} SafeIsCareful(v: Refusal, ss: seq<Coll>, calls: seq<Call>)
    requires IsRun(v, ss, calls) && Starts(v, ss[0]) && CrashSafe(v, ss)
    ensures Careful(v, ss, calls)
  {
    var log := ss[|calls|].log;
    forall i | 0 <= i < |calls| ensures !Unlogged(v, ss[i], calls[i]) {
      if ss[i + 1].log == ss[i].log {
        forall j | i <= j < |ss| ensures |ss[j].log| >= |ss[i].log| { LogsGrow(v, ss, calls, i, j); }
        var k := |ss[i].log|;
        assert Settled(ss, i, k);
        assert Settled(ss, i + 1, k);
      }
    }
    LogsGrow(v, ss, calls, 0, |calls|);
    var add := log[|ss[0].log|..];
    assert log == ss[0].log + add;
    RecoverJoin(v, EMPTY, ss[0].log, add);
    assert Settled(ss, |calls|, |log|);
    assert log[..|log|] == log;
    hide Recover;
    RecoverOpens(v, Recovered(ss[0].table, ss[0].xactions), add);
  }

  /**
   For every run that starts from any recovered log: cutting the log anywhere
   recovers exactly the calls that were wholly logged, so a half-logged
   transaction contributes nothing, if and only if no call changed the table
   without logging it and no transaction was logged under a name already in the
   log.
   */
  lemma CrashRecovery(v: Refusal, ss: seq<Coll>, calls: seq<Call>)
    requires IsRun(v, ss, calls) && Starts(v, ss[0])
    ensures CrashSafe(v, ss) <==> Careful(v, ss, calls)
  {
    if CrashSafe(v, ss) { SafeIsCareful(v, ss, calls); }
    if Careful(v, ss, calls) { CarefulIsSafe(v, ss, calls); }
  }

  // ---------- one transaction from its opening to its end ----------

  function Operates(rs: seq<Rec>): seq<Call> {
    seq(|rs|, i requires 0 <= i < |rs| => Operate(rs[i]))
  }

  function XactionCalls(name: string, rs: seq<Rec>, commit: bool): seq<Call> {
    [OpenXaction(name)] + Operates(rs) + [CloseXaction(name, commit)]
  }

  /** The state in which `rs` have been collected for a transaction that was opened in `s`. */
  function Collecting(s: Coll, name: string, rs: seq<Rec>): Coll {
    s.(xactions := s.xactions[name := Some(rs)], current := name)
  }

  lemma {:induction false} CollectsInOrder(v: Refusal, ss: seq<Coll>, name: string, rs: seq<Rec>, commit: bool, i: nat)
    requires IsRun(v, ss, XactionCalls(name, rs, commit))
    requires name != "" && name !in ss[0].xactions && i <= |rs|
    ensures ss[i + 1] == Collecting(ss[0], name, rs[..i])
  {
    var calls := XactionCalls(name, rs, commit);
    if i == 0 {
      assert calls[0] == OpenXaction(name);
      assert rs[..0] == [];
    } else {
      CollectsInOrder(v, ss, name, rs, commit, i - 1);
      assert calls[i] == Operate(rs[i - 1]);
      assert rs[..i] == rs[..i - 1] + [rs[i - 1]];
      assert ss[i + 1] == Step(v, ss[i], calls[i]);
    }
  }

  /**
   The operations of a transaction show in no table and no log before it is
   closed; then all of them are committed, in their order, or none is kept.
   */
  lemma {:induction false} TransactionAsOne(v: Refusal, ss: seq<Coll>, name: string, rs: seq<Rec>, commit: bool)
    requires IsRun(v, ss, XactionCalls(name, rs, commit)) && name != "" && name !in ss[0].xactions
    ensures forall i :: 0 <= i <= |rs| + 1 ==> ss[i].table == ss[0].table && ss[i].log == ss[0].log
    ensures var s, t := ss[0], ss[|rs| + 2];
      && t.xactions == s.xactions && t.current == name
      && (!commit ==> t.table == s.table && t.log == s.log)
      && (commit ==>
            var out := Commit(v, s.table, rs);
            && !out.Crashed? && t.table == out.table
            && t.log == s.log + if out.Committed? then XactionLog(name, rs) else [])
  {
    hide Commit;
    hide XactionLog;
    var n, calls := |rs|, XactionCalls(name, rs, commit);
    forall i | 0 <= i <= n + 1 ensures ss[i].table == ss[0].table && ss[i].log == ss[0].log {
      if i > 0 { CollectsInOrder(v, ss, name, rs, commit, i - 1); }
    }
    CollectsInOrder(v, ss, name, rs, commit, n);
    assert rs[..n] == rs;
    assert calls[n + 1] == CloseXaction(name, commit);
    assert ss[n + 2] == Step(v, ss[n + 1], calls[n + 1]);
    assert ss[0].xactions[name := Some(rs)] - {name} == ss[0].xactions;
  }

  /** Choosing a transaction changes nothing else, and only an open one or none can be chosen. */
  lemma ChoosingKeeps(v: Refusal, s: Coll, name: string)
    ensures Step(v, s, SetCurrent("")) == s.(current := "")
    ensures name in s.xactions ==> Step(v, s, SetCurrent(name)) == s.(current := name)
    ensures name != "" && name !in s.xactions ==> Step(v, s, SetCurrent(name)) == s
    ensures name in s.xactions ==> Step(v, s, OpenXaction(name)) == s
  {
  }

  /** An aborted transaction leaves nothing behind in recovery, and a forgotten one only its changes. */
  lemma {:induction false} EndsReplay(v: Refusal, s: Recovered, name: string, rs: seq<Rec>)
    requires s.Recovered? && name != "" && name !in s.xactions
    ensures Recover(v, s, [Open(name)] + Writes(name, rs) + [Abort(name)]) == s
    ensures Commit(v, s.table, rs).Committed? ==>
      Recover(v, s, XactionLog(name, rs) + [Forget(name)]) == s.(table := Commit(v, s.table, rs).table)
  {
    hide Commit;
    var begun := [Open(name)] + Writes(name, rs);
    var mid := Recovered(s.table, s.xactions[name := Some(rs)]);
    assert Recover(v, s, begun) == mid by { OpenedReplays(v, s, name, rs); }
    assert (begun + [Abort(name)])[..|begun|] == begun;
    assert s.xactions[name := Some(rs)] - {name} == s.xactions;
    var out := Commit(v, s.table, rs);
    if out.Committed? {
      var log := XactionLog(name, rs);
      assert log[..|log| - 1] == begun && log[|log| - 1] == CommitRec(name);
      assert Recover(v, s, log) == Recovered(out.table, s.xactions[name := Some(rs)][name := None]);
      assert (log + [Forget(name)])[..|log|] == log;
      assert s.xactions[name := Some(rs)][name := None] - {name} == s.xactions;
    }
  }

  lemma {:induction false} OpenedReplays(v: Refusal, s: Recovered, name: string, rs: seq<Rec>)
    requires s.Recovered? && name != "" && name !in s.xactions
    ensures Recover(v, s, [Open(name)] + Writes(name, rs)) == Recovered(s.table, s.xactions[name := Some(rs)])
  {
    var one := Recovered(s.table, s.xactions[name := Some([])]);
    assert [Open(name)][..0] == [];
    assert Recover(v, s, [Open(name)]) == one;
    RecoverJoin(v, s, [Open(name)], Writes(name, rs));
    WritesReplay(v, one, name, rs);
    assert one.xactions[name := Some(rs)] == s.xactions[name := Some(rs)];
  }

  /** Outside transactions an operation is logged exactly when it succeeds, and then has done what recovery will do. */
  lemma OperationsLogged(v: Refusal, s: Coll, r: Rec)
    requires s.current == ""
    ensures var t, p := Step(v, s, Operate(r)), Play(v, s.table, r);
      && t.log == s.log + (if p.ok then [Write("", r)] else [])
      && (p.ok || r.op.UpdateAd? || r.op.ModifyAd? ==> t.table == p.table)
      && (!p.ok && (r.op.AddAd? || r.op.RemoveAd?) ==> t.table == s.table)
      && t.xactions == s.xactions && t.current == ""
  {
    hide Changed;
  }

  /** An operation that cannot be done again, or a commit, ends recovery. */
  lemma FailedRecordsFail(v: Refusal, s: Recovered, name: string, r: Rec)
    requires s.Recovered?
    ensures RecoverOne(v, s, Write("", r)).Recovered? <==> Play(v, s.table, r).ok
    ensures name in s.xactions && s.xactions[name].None? ==>
      RecoverOne(v, s, CommitRec(name)).Failed? && (name != "" ==> RecoverOne(v, s, Write(name, r)).Failed?)
    ensures name in s.xactions && s.xactions[name].Some? ==>
      (RecoverOne(v, s, CommitRec(name)).Recovered? <==> Commit(v, s.table, s.xactions[name].value).Committed?)
  {
    hide Commit;
    hide Play;
  }

  /** Recovery ends at a record for a transaction that is not open, or at an opening of one that is. */
  lemma StrayRecordsFail(v: Refusal, s: Recovered, name: string, r: Rec)
    requires s.Recovered? && name != ""
    ensures name in s.xactions ==> RecoverOne(v, s, Open(name)).Failed?
    ensures name !in s.xactions ==>
      && RecoverOne(v, s, Abort(name)).Failed? && RecoverOne(v, s, Forget(name)).Failed?
      && RecoverOne(v, s, CommitRec(name)).Failed? && RecoverOne(v, s, Write(name, r)).Failed?
  {
  }
}
