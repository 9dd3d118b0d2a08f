/**
 The file of reconnect records: one line per record, appended when a daemon gets
 its identifier, rewritten when a sweep has pruned records, and read back when
 the broker restarts.
 */
module Reconnect {
  import opened Values
  import RelativeTime
  import S = CcbServer

  datatype Record = Record(ip: string, id: S.Id, cookie: nat)

  /** What a daemon needs to reclaim an identifier. */
  datatype Known = Known(ip: string, cookie: nat)

  type Table = map<S.Id, Known>

  // ---------- writing ----------

  predicate IsBlank(c: char) {
    c == ' ' || c == '\t' || c == '\n' || c == '\r'
  }

  function LineOf(r: Record): string {
    r.ip + (" " + (RelativeTime.Decimal(r.id) + (" " + (RelativeTime.Decimal(r.cookie) + "\n"))))
  }

  function Written(rs: seq<Record>): string {
    if rs == [] then "" else LineOf(rs[0]) + Written(rs[1..])
  }

  /** An address without blanks, numbers in range, and a line that fits the buffer. */
  predicate Fits(r: Record) {
    && r.ip != "" && (forall c :: c in r.ip ==> !IsBlank(c))
    && r.id < S.ID_RANGE && r.cookie < S.ID_RANGE && |LineOf(r)| <= 127
  }

  // ---------- reading ----------

  /** `fgets` into 128 bytes */
  function Chunk(s: string, room: nat): (n: nat)
    ensures n <= |s| && n <= room && (s != "" && room > 0 ==> n > 0)
    decreases room
  {
    if s == "" || room == 0 then 0 else if s[0] == '\n' then 1 else 1 + Chunk(s[1..], room - 1)
  }

  function SkipBlanks(s: string): (r: string)
    ensures |r| <= |s|
  {
    if s != "" && IsBlank(s[0]) then SkipBlanks(s[1..]) else s
  }

  function WordEnd(s: string): (n: nat)
    ensures n <= |s|
  {
    if s == "" || IsBlank(s[0]) then 0 else 1 + WordEnd(s[1..])
  }

  function DigitsEnd(s: string): (n: nat)
    ensures n <= |s|
    ensures RelativeTime.AllDigits(s[..n])
  {
    if s == "" || !RelativeTime.IsDigit(s[0]) then 0
    else
      var n := 1 + DigitsEnd(s[1..]);
      assert s[..n] == [s[0]] + s[1..][..n - 1];
      n
  }

  /** `CCBIDFromString`: a number too large becomes the largest. */
  function IdOf(w: string): Option<S.Id> {
    var d := w[..DigitsEnd(w)];
    if d == "" then None
    else
      var v := RelativeTime.DecimalValue(d);
      Some(if v < S.ID_RANGE then v else S.ID_RANGE - 1)
  }

  /** A number is read up to the first character that is no digit; from 2^64 on it is read as 2^64 - 1. */
  lemma IdsSaturate(ds: string, rest: string)
    requires ds != "" && RelativeTime.AllDigits(ds) && (rest != "" ==> !RelativeTime.IsDigit(rest[0]))
    ensures var n := RelativeTime.DecimalValue(ds);
      IdOf(ds + rest) == Some(if n <= 18446744073709551615 then n else 18446744073709551615)
  {
    DigitsStop(ds, rest);
    assert (ds + rest)[..|ds|] == ds;
    hide RelativeTime.DecimalValue;
  }

  lemma {:induction false} DigitsStop(ds: string, rest: string)
    requires RelativeTime.AllDigits(ds) && (rest != "" ==> !RelativeTime.IsDigit(rest[0]))
    ensures DigitsEnd(ds + rest) == |ds|
  {
    if ds == "" {
      assert ds + rest == rest;
    } else {
      assert (ds + rest)[1..] == ds[1..] + rest;
      DigitsStop(ds[1..], rest);
    }
  }

  /** Three words, the last two numbers; anything else is not a record. */
  function RecordOf(line: string): Option<Record> {
    var a := SkipBlanks(line);
    var ip := a[..WordEnd(a)];
    var b := SkipBlanks(a[WordEnd(a)..]);
    var id := b[..WordEnd(b)];
    var c := SkipBlanks(b[WordEnd(b)..]);
    var cookie := c[..WordEnd(c)];
    if ip == "" || IdOf(id).None? || IdOf(cookie).None? then None
    else Some(Record(ip, IdOf(id).value, IdOf(cookie).value))
  }

  datatype Loaded = Loaded(table: Table, next: int)

  /** Arithmetic on identifiers wraps around. */
  function Moved(id: int, n: nat): int {
    (id + n) % S.ID_RANGE
  }

  function Noted(s: Loaded, r: Record): Loaded {
    Loaded(s.table[r.id := Known(r.ip, r.cookie)], if r.id > s.next then Moved(r.id, 1) else s.next)
  }

  /** The loop of `LoadReconnectInfo` */
  function Load(text: string, s: Loaded): Loaded
    decreases |text|
  {
    if text == "" then s
    else
      var n := Chunk(text, 127);
      var r := RecordOf(text[..n]);
      Load(text[n..], if r.Some? then Noted(s, r.value) else s)
  }

  // ---------- one line ----------

  lemma {:induction false} ChunkIsLine(line: string, rest: string, room: nat)
    requires line != "" && line[|line| - 1] == '\n' && '\n' !in line[..|line| - 1] && |line| <= room
    ensures Chunk(line + rest, room) == |line|
    decreases |line|
  {
    var s := line + rest;
    assert s[0] == line[0] && s[1..] == line[1..] + rest;
    if |line| > 1 {
      assert line[0] == line[..|line| - 1][0];
      assert line[1..][..|line| - 2] == line[..|line| - 1][1..];
      ChunkIsLine(line[1..], rest, room - 1);
    }
  }

  lemma {:induction false} WordStops(w: string, rest: string)
    requires (forall c :: c in w ==> !IsBlank(c)) && (rest == "" || IsBlank(rest[0]))
    ensures WordEnd(w + rest) == |w| && (w + rest)[..|w|] == w && (w + rest)[|w|..] == rest
  {
    if w == "" {
      assert w + rest == rest;
    } else {
      assert (w + rest)[0] == w[0] && (w + rest)[1..] == w[1..] + rest;
      WordStops(w[1..], rest);
    }
  }

  lemma {:induction false} AllDigitsRead(w: string)
    requires RelativeTime.AllDigits(w)
    ensures DigitsEnd(w) == |w|
  {
    if w != "" {
      assert w[0] in w;
      AllDigitsRead(w[1..]);
    }
  }

  lemma {:induction false} IdReads(n: nat)
    requires n < S.ID_RANGE
    ensures IdOf(RelativeTime.Decimal(n)) == Some(n)
    ensures RelativeTime.Decimal(n) != "" && forall c :: c in RelativeTime.Decimal(n) ==> !IsBlank(c)
  {
    RelativeTime.DecimalReads(n);
    var w := RelativeTime.Decimal(n);
    AllDigitsRead(w);
    assert w[..|w|] == w;
  }

  predicate IsWord(w: string) {
    w != "" && forall c :: c in w ==> !IsBlank(c)
  }

  /** Reading a word that follows at most one space and is followed by a blank. */
  lemma {:induction false} WordReads(w: string, rest: string)
    requires IsWord(w) && rest != "" && IsBlank(rest[0])
    ensures SkipBlanks(w + rest) == w + rest && SkipBlanks(" " + (w + rest)) == w + rest
    ensures WordEnd(w + rest) == |w| && (w + rest)[..|w|] == w && (w + rest)[|w|..] == rest
  {
    assert w[0] in w && (w + rest)[0] == w[0];
    assert (" " + (w + rest))[1..] == w + rest;
    WordStops(w, rest);
    hide WordEnd;
  }

  lemma {:induction false} WordsRead(ip: string, id: string, cookie: string)
    requires IsWord(ip) && IsWord(id) && IsWord(cookie) && IdOf(id).Some? && IdOf(cookie).Some?
    ensures RecordOf(ip + (" " + (id + (" " + (cookie + "\n"))))) ==
      Some(Record(ip, IdOf(id).value, IdOf(cookie).value))
  {
    WordReads(ip, " " + (id + (" " + (cookie + "\n"))));
    WordReads(id, " " + (cookie + "\n"));
    WordReads(cookie, "\n");
    hide IdOf;
    hide SkipBlanks;
    hide WordEnd;
    hide IsWord;
  }

  /** A written line reads back as its record. */
  lemma {:induction false} LineReads(r: Record)
    requires Fits(r)
    ensures RecordOf(LineOf(r)) == Some(r)
  {
    var id, cookie := RelativeTime.Decimal(r.id), RelativeTime.Decimal(r.cookie);
    IdReads(r.id);
    IdReads(r.cookie);
    WordsRead(r.ip, id, cookie);
    hide RelativeTime.Decimal;
    hide IdOf;
    hide RecordOf;
  }

  lemma {:induction false} LineShape(r: Record)
    requires Fits(r)
    ensures var line := LineOf(r); line != "" && line[|line| - 1] == '\n' && '\n' !in line[..|line| - 1]
  {
    var id, cookie := RelativeTime.Decimal(r.id), RelativeTime.Decimal(r.cookie);
    IdReads(r.id);
    IdReads(r.cookie);
    hide RelativeTime.Decimal;
    hide IdOf;
    var line := LineOf(r);
    assert '\n' !in r.ip && '\n' !in id && '\n' !in cookie;
    assert line[..|line| - 1] == r.ip + (" " + (id + (" " + cookie)));
  }

  // ---------- the whole file ----------

  /** The records in the order they were written, later ones over earlier ones. */
  function Fold(rs: seq<Record>, s: Loaded): Loaded {
    if rs == [] then s else Fold(rs[1..], Noted(s, rs[0]))
  }

  lemma {:induction false} LoadReads(rs: seq<Record>, s: Loaded)
    requires forall i :: 0 <= i < |rs| ==> Fits(rs[i])
    ensures Load(Written(rs), s) == Fold(rs, s)
    decreases |rs|
  {
    if rs != [] {
      var line, rest := LineOf(rs[0]), Written(rs[1..]);
      LineShape(rs[0]);
      ChunkIsLine(line, rest, 127);
      LineReads(rs[0]);
      assert (line + rest)[..|line|] == line && (line + rest)[|line|..] == rest;
      LoadReads(rs[1..], Noted(s, rs[0]));
      hide RecordOf;
      hide Chunk;
      hide LineOf;
    }
  }

  lemma {:induction false} FoldJoin(a: seq<Record>, b: seq<Record>, s: Loaded)
    ensures Fold(a + b, s) == Fold(b, Fold(a, s))
    decreases |a|
  {
    if a == [] {
      assert a + b == b;
    } else {
      assert (a + b)[1..] == a[1..] + b;
      FoldJoin(a[1..], b, Noted(s, a[0]));
    }
  }

  lemma {:induction false} WrittenJoin(a: seq<Record>, b: seq<Record>)
    ensures Written(a + b) == Written(a) + Written(b)
    decreases |a|
  {
    hide LineOf;
    if a == [] {
      assert a + b == b;
    } else {
      assert (a + b)[1..] == a[1..] + b;
      WrittenJoin(a[1..], b);
    }
  }

  /** The next identifier passes every loaded one, unless the largest one is among them. */
  lemma {:induction false} NextPasses(rs: seq<Record>, s: Loaded)
    requires forall i :: 0 <= i < |rs| ==> rs[i].id < S.ID_RANGE - 1
    ensures Fold(rs, s).next >= s.next
    ensures forall i :: 0 <= i < |rs| ==> Fold(rs, s).next >= rs[i].id
    decreases |rs|
  {
    if rs != [] {
      NextPasses(rs[1..], Noted(s, rs[0]));
      assert forall i :: 1 <= i < |rs| ==> rs[i] == rs[1..][i - 1];
    }
  }

  lemma {:induction false} NextIsId(rs: seq<Record>, s: Loaded)
    requires 0 <= s.next < S.ID_RANGE
    ensures 0 <= Fold(rs, s).next < S.ID_RANGE
    decreases |rs|
  {
    if rs != [] { NextIsId(rs[1..], Noted(s, rs[0])); }
  }

  // ---------- rewriting ----------

  /** The records of a broker, without when they were last alive. */
  function TableOf(infos: map<S.Id, S.Info>): Table {
    map c | c in infos :: Known(infos[c].ip, infos[c].cookie)
  }

  predicate Named(rs: seq<Record>, c: S.Id) {
    exists i :: 0 <= i < |rs| && rs[i].id == c
  }

  /** Every record is one of the table. */
  predicate AllFrom(rs: seq<Record>, t: Table) {
    forall i :: 0 <= i < |rs| ==> rs[i].id in t && t[rs[i].id] == Known(rs[i].ip, rs[i].cookie)
  }

  /** Records of a table, in the order in which it yields them. */
  predicate RecordsOf(rs: seq<Record>, t: Table) {
    AllFrom(rs, t) && forall c :: c in t ==> Named(rs, c)
  }

  lemma {:induction false} FoldAt(rs: seq<Record>, s: Loaded, t: Table, c: S.Id)
    requires AllFrom(rs, t)
    ensures c in Fold(rs, s).table <==> Named(rs, c) || c in s.table
    ensures Named(rs, c) ==> c in t && Fold(rs, s).table[c] == t[c]
    ensures !Named(rs, c) && c in s.table ==> Fold(rs, s).table[c] == s.table[c]
    decreases |rs|
  {
    if rs != [] {
      FoldAt(rs[1..], Noted(s, rs[0]), t, c);
      assert forall i :: 0 <= i < |rs| - 1 ==> rs[1..][i] == rs[i + 1];
      assert Named(rs, c) <==> rs[0].id == c || Named(rs[1..], c) by {
        if i :| 0 <= i < |rs| && rs[i].id == c { assert i > 0 ==> rs[1..][i - 1].id == c; }
        if i :| 0 <= i < |rs[1..]| && rs[1..][i].id == c { assert rs[i + 1].id == c; }
      }
    }
  }

  /** A rewritten file holds the table it was written from. */
  lemma {:induction false} RewriteHolds(rs: seq<Record>, t: Table, next: int)
    requires RecordsOf(rs, t)
    ensures Fold(rs, Loaded(map[], next)).table == t
  {
    forall c ensures c in Fold(rs, Loaded(map[], next)).table <==> c in t { FoldAt(rs, Loaded(map[], next), t, c); }
    forall c | c in t ensures Fold(rs, Loaded(map[], next)).table[c] == t[c] { FoldAt(rs, Loaded(map[], next), t, c); }
  }

  // ---------- runs ----------

  /** A broker and the records in its file. */
  datatype Disk = Disk(server: S.Server, rs: seq<Record>)

  predicate Allocates(s: S.Server, e: S.Event) {
    e.Register? && !S.Reclaims(s, e.ip, e.claim)
  }

  predicate Prunes(s: S.Server, e: S.Event) {
    e.Sweep? && S.Possible(s, e) && S.Handle(s, e).0.reconnect.Keys != s.reconnect.Keys
  }

  /** What one handler does to the file: append a new record, or rewrite it in the table's order. */
  predicate Steps(d: Disk, e: S.Event, d1: Disk) {
    && S.Possible(d.server, e) && d1.server == S.Handle(d.server, e).0
    && if Allocates(d.server, e) then d1.rs == d.rs + [Record(e.ip, S.Assigned(d.server, e.ip, e.claim), e.cookie)]
       else if Prunes(d.server, e) then RecordsOf(d1.rs, TableOf(d1.server.reconnect))
       else d1.rs == d.rs
  }

  predicate InStep(d: Disk, next: int) {
    Fold(d.rs, Loaded(map[], next)).table == TableOf(d.server.reconnect)
  }

  /** Handlers other than allocation and pruning leave the records as they are. */
  lemma {:induction false} SameRecords(s: S.Server, e: S.Event)
    requires S.Possible(s, e) && !Allocates(s, e) && !Prunes(s, e)
    ensures TableOf(S.Handle(s, e).0.reconnect) == TableOf(s.reconnect)
  {
    hide S.HasRoom;
    hide S.Allocate;
    hide S.AfterAllocate;
    match e
    case Register(ip, claim, cookie, now, replyOk) =>
      var c := claim.value.0;
      assert S.Handle(s, e).0.reconnect == s.reconnect[c := s.reconnect[c].(lastAlive := now)];
      hide S.Handle;
    case Sweep(now) => if s.lastSweep + s.interval <= now { SweepRecords(s, now); }
    case _ =>
  }

  lemma {:induction false} SweepRecords(s: S.Server, now: int)
    requires S.SweptInfo(s, now).Keys == s.reconnect.Keys
    ensures TableOf(S.SweptInfo(s, now)) == TableOf(s.reconnect)
  {
    forall c | c in s.reconnect ensures TableOf(S.SweptInfo(s, now))[c] == TableOf(s.reconnect)[c] {
      assert c in S.SweptInfo(s, now);
    }
  }

  lemma {:induction false} AllocateRecords(s: S.Server, e: S.Event)
    requires S.Possible(s, e) && Allocates(s, e)
    ensures TableOf(S.Handle(s, e).0.reconnect) ==
            TableOf(s.reconnect)[S.Assigned(s, e.ip, e.claim) := Known(e.ip, e.cookie)]
  {
    hide S.HasRoom;
    hide S.Allocate;
    hide S.AfterAllocate;
    assert S.Handle(s, e).0.reconnect == s.reconnect[S.Assigned(s, e.ip, e.claim) := S.Info(e.cookie, e.ip, e.now)];
    hide S.Handle;
  }

  lemma {:induction false} StepsInStep(d: Disk, e: S.Event, d1: Disk, next: int)
    requires Steps(d, e, d1) && InStep(d, next)
    ensures InStep(d1, next)
  {
    hide TableOf;
    if Allocates(d.server, e) {
      var r := Record(e.ip, S.Assigned(d.server, e.ip, e.claim), e.cookie);
      AllocateRecords(d.server, e);
      FoldJoin(d.rs, [r], Loaded(map[], next));
      assert [r][1..] == [];
    } else if Prunes(d.server, e) {
      RewriteHolds(d1.rs, TableOf(d1.server.reconnect), next);
    } else {
      SameRecords(d.server, e);
    }
  }

  predicate IsRun(ds: seq<Disk>, es: seq<S.Event>) {
    && |ds| == |es| + 1
    && forall i :: 0 <= i < |es| ==> Steps(ds[i], es[i], ds[i + 1])
  }

  lemma {:induction false} FileKeepsUp(ds: seq<Disk>, es: seq<S.Event>, i: nat, next: int)
    requires IsRun(ds, es) && InStep(ds[0], next) && i < |ds|
    ensures InStep(ds[i], next)
  {
    hide Steps;
    hide InStep;
    if i > 0 {
      FileKeepsUp(ds, es, i - 1, next);
      StepsInStep(ds[i - 1], es[i - 1], ds[i], next);
    }
  }

  /** A hundred identifiers are left after the next one, and after every one in use. */
  predicate RoomAhead(next: int, used: set<S.Id>) {
    next + 100 < S.ID_RANGE && forall c :: c in used ==> c + 100 < S.ID_RANGE
  }

  predicate FarAhead(next: int, used: set<S.Id>) {
    forall c :: c in used ==> next >= c + 100
  }

  /**
   After any run of registrations and sweeps, a restarted broker reads back the
   same table of identifiers, addresses and cookies.  Its next identifier is at
   least a hundred past every one of them, exactly when identifiers do not wrap
   around on the way.
   */
  lemma {:induction false} RecordsSurvive(ds: seq<Disk>, es: seq<S.Event>, i: nat, next: int)
    requires IsRun(ds, es) && InStep(ds[0], next) && i < |ds| && 0 <= next < S.ID_RANGE
    requires forall j :: 0 <= j < |ds[i].rs| ==> Fits(ds[i].rs[j])
    ensures var after := Load(Written(ds[i].rs), Loaded(map[], next));
            var used := ds[i].server.reconnect.Keys;
            && after.table == TableOf(ds[i].server.reconnect)
            && (FarAhead(Moved(after.next, 100), used) <==> used == {} || RoomAhead(after.next, used))
  {
    hide Fits;
    FileKeepsUp(ds, es, i, next);
    LoadReads(ds[i].rs, Loaded(map[], next));
    NextIsId(ds[i].rs, Loaded(map[], next));
    var used, after := ds[i].server.reconnect.Keys, Fold(ds[i].rs, Loaded(map[], next));
    assert used == after.table.Keys;
    hide TableOf;
    hide Steps;
    if RoomAhead(after.next, used) { AheadOfAll(ds[i].rs, next); }
    JumpsAhead(after.next, used);
  }

  /** What can be checked before the restart: the first identifier and every one in use leave room for the jump. */
  predicate LeavesRoom(next: int, used: set<S.Id>) {
    next + 100 < S.ID_RANGE && forall c :: c in used ==> c + 101 < S.ID_RANGE
  }

  /** With room left beforehand, a restart never hands out an identifier of the last hundred. */
  lemma {:induction false} RestartJumpsAhead(ds: seq<Disk>, es: seq<S.Event>, i: nat, next: int)
    requires IsRun(ds, es) && InStep(ds[0], next) && i < |ds| && 0 <= next
    requires forall j :: 0 <= j < |ds[i].rs| ==> Fits(ds[i].rs[j])
    requires LeavesRoom(next, ds[i].server.reconnect.Keys)
    ensures FarAhead(Moved(Load(Written(ds[i].rs), Loaded(map[], next)).next, 100), ds[i].server.reconnect.Keys)
  {
    assert TableOf(ds[i].server.reconnect).Keys == ds[i].server.reconnect.Keys;
    assert next < S.ID_RANGE;
    hide *;
    RecordsSurvive(ds, es, i, next);
    LoadReads(ds[i].rs, Loaded(map[], next));
    RoomStays(ds[i].rs, next);
  }

  lemma {:induction false} RoomStays(rs: seq<Record>, next: int)
    requires 0 <= next && LeavesRoom(next, Fold(rs, Loaded(map[], next)).table.Keys)
    ensures var after := Fold(rs, Loaded(map[], next)); RoomAhead(after.next, after.table.Keys)
  {
    hide Fold;
    var s := Loaded(map[], next);
    NextFrom(rs, s);
    if Fold(rs, s).next != next {
      var j :| 0 <= j < |rs| && Fold(rs, s).next == Moved(rs[j].id, 1);
      NamedIsIn(rs, s, j);
    }
  }

  /** The next identifier is the first one or follows a loaded one. */
  lemma {:induction false} NextFrom(rs: seq<Record>, s: Loaded)
    ensures Fold(rs, s).next == s.next || exists i :: 0 <= i < |rs| && Fold(rs, s).next == Moved(rs[i].id, 1)
    decreases |rs|
  {
    if rs != [] {
      var s1 := Noted(s, rs[0]);
      NextFrom(rs[1..], s1);
      if Fold(rs[1..], s1).next != s1.next {
        var i :| 0 <= i < |rs[1..]| && Fold(rs[1..], s1).next == Moved(rs[1..][i].id, 1);
        assert rs[1..][i] == rs[i + 1];
      }
    }
  }

  lemma {:induction false} AheadOfAll(rs: seq<Record>, next: int)
    requires var after := Fold(rs, Loaded(map[], next)); RoomAhead(after.next, after.table.Keys)
    ensures var after := Fold(rs, Loaded(map[], next)); forall c :: c in after.table ==> after.next >= c
  {
    var s := Loaded(map[], next);
    forall i | 0 <= i < |rs| ensures rs[i].id in Fold(rs, s).table { NamedIsIn(rs, s, i); }
    NextPasses(rs, s);
    forall c | c in Fold(rs, s).table ensures Named(rs, c) { OnlyNamed(rs, s, c); }
  }

  lemma {:induction false} NamedIsIn(rs: seq<Record>, s: Loaded, i: nat)
    requires i < |rs|
    ensures rs[i].id in Fold(rs, s).table
    decreases |rs|
  {
    StaysIn(rs[1..], Noted(s, rs[0]), rs[0].id);
    if i > 0 { NamedIsIn(rs[1..], Noted(s, rs[0]), i - 1); }
  }

  lemma {:induction false} StaysIn(rs: seq<Record>, s: Loaded, c: S.Id)
    requires c in s.table
    ensures c in Fold(rs, s).table
    decreases |rs|
  {
    if rs != [] { StaysIn(rs[1..], Noted(s, rs[0]), c); }
  }

  lemma JumpsAhead(next: int, used: set<S.Id>)
    requires 0 <= next < S.ID_RANGE
    requires RoomAhead(next, used) ==> forall c :: c in used ==> next >= c
    ensures FarAhead(Moved(next, 100), used) <==> used == {} || RoomAhead(next, used)
  {
    if used != {} && FarAhead(Moved(next, 100), used) {
      var c :| c in used;
      assert Moved(next, 100) >= 100;
    }
  }

  lemma {:induction false} OnlyNamed(rs: seq<Record>, s: Loaded, c: S.Id)
    requires c in Fold(rs, s).table && c !in s.table
    ensures Named(rs, c)
    decreases |rs|
  {
    if rs != [] {
      if rs[0].id != c {
        OnlyNamed(rs[1..], Noted(s, rs[0]), c);
        var i :| 0 <= i < |rs[1..]| && rs[1..][i].id == c;
        assert rs[i + 1].id == c;
      } else {
        assert rs[0].id == c;
      }
    }
  }

  // ---------- the loops ----------

  lemma NotedIs(s: Loaded, r: Record)
    ensures Noted(s, r) ==
      Loaded(s.table[r.id := Known(r.ip, r.cookie)], if r.id > s.next then Moved(r.id, 1) else s.next)
  {
  }

  lemma LoadNothing(s: Loaded)
    ensures Load("", s) == s
  {
  }

  lemma LoadStep(text: string, s: Loaded)
    requires text != ""
    ensures var n := Chunk(text, 127); var r := RecordOf(text[..n]);
            n > 0 && Load(text, s) == Load(text[n..], if r.Some? then Noted(s, r.value) else s)
  {
    hide Chunk;
    hide RecordOf;
    hide Noted;
  }

  method LoadReconnectInfo(text: string, next: int) returns (table: Table, nextId: int)
    ensures var after := Load(text, Loaded(map[], next)); table == after.table && nextId == Moved(after.next, 100)
  {
    hide *;
    table, nextId := map[], next;
    var rest := text;
    while rest != ""
      invariant Load(rest, Loaded(table, nextId)) == Load(text, Loaded(map[], next))
      decreases |rest|
    {
      LoadStep(rest, Loaded(table, nextId));
      var n := Chunk(rest, 127);
      var r := RecordOf(rest[..n]);
      rest := rest[n..];
      if r.Some? {
        NotedIs(Loaded(table, nextId), r.value);
        if r.value.id > nextId { nextId := Moved(r.value.id, 1); }
        table := table[r.value.id := Known(r.value.ip, r.value.cookie)];
      }
    }
    LoadNothing(Loaded(table, nextId));
    nextId := Moved(nextId, 100);
  }

  /** Writes every record of the table, in some order, to an empty file. */
  method SaveAllReconnectInfo(t: Table) returns (text: string, ghost rs: seq<Record>)
    ensures text == Written(rs) && RecordsOf(rs, t)
  {
    text, rs := "", [];
    var todo := t.Keys;
    while todo != {}
      invariant todo <= t.Keys && text == Written(rs) && AllFrom(rs, t)
      invariant forall c :: c in t ==> c in todo || Named(rs, c)
      decreases |todo|
    {
      hide LineOf;
      var c :| c in todo;
      ghost var was := rs;
      var r := Record(t[c].ip, c, t[c].cookie);
      WrittenJoin(rs, [r]);
      assert [r][1..] == [] && Written([]) == "" && LineOf(r) + "" == LineOf(r);
      text := text + LineOf(r);
      rs := rs + [r];
      todo := todo - {c};
      assert rs[|was|].id == c;
      forall k | k in t ensures k in todo || Named(rs, k) {
        if Named(was, k) {
          var i :| 0 <= i < |was| && was[i].id == k;
          assert rs[i].id == k;
        }
      }
    }
  }
}
