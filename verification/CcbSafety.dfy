/**
 The broker together with the clients that ask it for connections and the
 daemons that make them.

 A client waits at its return address under a connect id of its own.  A daemon
 that receives a forwarded request connects to that address, writes a hello with
 the connect id, and then reports the result to the broker.  Messages may be
 delayed, repeated or lost, but no participant invents one.
 */
module CcbSafety {
  import opened Values
  import opened CcbServer

  /** A reverse-connect command written to `addr`. */
  datatype Hello = Hello(addr: string, cid: string)

  /** The result that a daemon reports for a forwarded request. */
  datatype Report = Report(reqid: Id, cid: string, success: bool)

  /**
   How a daemon's reverse connection went: the connection itself and the three
   writes of its hello.  A hello whose end could not be written may still have
   gone out.
   */
  datatype Attempt = Attempt(connected: bool, command: bool, ad: bool, end: bool, leaked: bool)

  predicate Wrote(a: Attempt) {
    a.connected && a.command && a.ad && a.end
  }

  predicate MayArrive(a: Attempt) {
    a.connected && a.command && a.ad && (a.end || a.leaked)
  }

  datatype Owner = Owner(client: nat, addr: string)

  datatype Attachment = Attachment(client: nat, cid: string, hello: Hello)

  datatype System = System(
    server: Server,
    owners: map<string, Owner>,           // who uses a connect id, and at which address
    forwarded: set<Out>,
    hellos: set<Hello>,
    reports: set<Report>,
    replies: seq<Out>,
    waiting: map<(string, string), nat>,  // address and connect id -> client
    attached: seq<Attachment>)

  datatype Step =
    | ServerDoes(e: Event)
    | ClientAsks(r: Request, forwardOk: bool)
    | DaemonReverses(f: Out, a: Attempt)
    | ServerHears(from: Id, report: Report, gone: bool, goneLater: bool)
    | ClientAccepts(hello: Hello)
    | ClientGivesUp(addr: string, cid: string)

  predicate Enabled(y: System, t: Step) {
    match t
    case ServerDoes(e) => !e.Ask? && (e.Result? ==> e.reqid.None?) && Possible(y.server, e)
    case ClientAsks(r, ok) =>
      Possible(y.server, Ask(r, ok)) && (r.cid in y.owners ==> y.owners[r.cid] == Owner(r.client, r.addr))
    case DaemonReverses(f, _) => f in y.forwarded && f.Forwarded?
    case ServerHears(from, report, _, _) => report in y.reports && from in y.server.targets
    case ClientAccepts(hello) => hello in y.hellos
    case ClientGivesUp(addr, cid) => true
  }

  function EventOf(t: Step): Event
    requires t.ServerDoes? || t.ClientAsks? || t.ServerHears?
  {
    match t
    case ServerDoes(e) => e
    case ClientAsks(r, ok) => Ask(r, ok)
    case ServerHears(from, report, gone, goneLater) =>
      Result(from, Some(report.reqid), report.cid, report.success, gone, goneLater)
  }

  /** The server handles an event; what it says goes out. */
  function Served(y: System, e: Event): System
    requires Possible(y.server, e)
  {
    var (server, out) := Handle(y.server, e);
    y.(server := server,
       forwarded := y.forwarded + (set o | o in out && o.Forwarded?),
       replies := y.replies + out)
  }

  /** A client takes a connect id and waits at its address. */
  function Asked(y: System, r: Request): System {
    y.(owners := y.owners[r.cid := Owner(r.client, r.addr)], waiting := y.waiting[(r.addr, r.cid) := r.client])
  }

  /** `ReverseConnected`: write the hello if there is a connection, then report what came of it. */
  function Reversed(y: System, f: Out, a: Attempt): System
    requires f.Forwarded?
  {
    y.(hellos := if MayArrive(a) then y.hellos + {Hello(f.addr, f.cid)} else y.hellos,
       reports := y.reports + {Report(f.id, f.cid, Wrote(a))})
  }

  function Next(y: System, t: Step): System
    requires Enabled(y, t)
  {
    match t
    case ServerDoes(e) => Served(y, e)
    case ClientAsks(r, ok) => Served(Asked(y, r), Ask(r, ok))
    case DaemonReverses(f, a) => Reversed(y, f, a)
    case ServerHears(_, _, _, _) => Served(y, EventOf(t))
    case ClientAccepts(hello) =>
      var k := (hello.addr, hello.cid);
      if k in y.waiting then
        y.(attached := y.attached + [Attachment(y.waiting[k], hello.cid, hello)], waiting := y.waiting - {k})
      else y
    case ClientGivesUp(addr, cid) => y.(waiting := y.waiting - {(addr, cid)})
  }

  // ---------- what stays true ----------

  predicate Owns(y: System, cid: string, addr: string) {
    cid in y.owners && y.owners[cid].addr == addr
  }

  predicate RequestsOwned(y: System) {
    forall id :: id in y.server.requests ==>
      var r := y.server.requests[id]; r.cid in y.owners && y.owners[r.cid] == Owner(r.client, r.addr)
  }

  predicate ForwardsOwned(y: System) {
    forall f :: f in y.forwarded ==> f.Forwarded? && Owns(y, f.cid, f.addr)
  }

  predicate HellosOwned(y: System) {
    forall h :: h in y.hellos ==> Owns(y, h.cid, h.addr)
  }

  /** A reported success has its hello, at the address that owns the connect id. */
  predicate ReportsTrue(y: System) {
    forall p :: p in y.reports && p.success ==> p.cid in y.owners && Hello(y.owners[p.cid].addr, p.cid) in y.hellos
  }

  predicate WaitingOwned(y: System) {
    forall k :: k in y.waiting ==> k.1 in y.owners && y.owners[k.1] == Owner(y.waiting[k], k.0)
  }

  /** Success told to a client means that a daemon has written the hello it waits for. */
  predicate RepliesTrue(y: System) {
    forall i :: 0 <= i < |y.replies| && y.replies[i].Replied? && y.replies[i].success ==>
      Hello(y.replies[i].r.addr, y.replies[i].r.cid) in y.hellos
  }

  /** A client is only attached to a connection made for its own connect id and address. */
  predicate AttachedTrue(y: System) {
    forall i :: 0 <= i < |y.attached| ==>
      var a := y.attached[i];
      && a.hello in y.hellos && a.hello.cid == a.cid
      && a.cid in y.owners && y.owners[a.cid] == Owner(a.client, a.hello.addr)
  }

  predicate Safe(y: System) {
    && Linked(y.server) && RequestsOwned(y) && ForwardsOwned(y) && HellosOwned(y)
    && ReportsTrue(y) && WaitingOwned(y) && RepliesTrue(y) && AttachedTrue(y)
  }

  predicate OwnersGrow(y: System, z: System) {
    forall cid :: cid in y.owners ==> cid in z.owners && z.owners[cid] == y.owners[cid]
  }

  /** Serving an event keeps everything, given where success and requests come from. */
  lemma ServedSafe(y: System, e: Event)
    requires Safe(y) && Possible(y.server, e)
    requires e.Ask? ==> e.r.cid in y.owners && y.owners[e.r.cid] == Owner(e.r.client, e.r.addr)
    requires e.Result? && e.success && e.reqid.Some? ==> Report(e.reqid.value, e.cid, true) in y.reports
    ensures Safe(Served(y, e))
  {
    HandleLinked(y.server, e);
    ServedRequests(y, e);
    ServedForwards(y, e);
    ServedReplies(y, e);
    hide Handle;
    hide Linked;
    hide RequestsOwned;
    hide ForwardsOwned;
    hide RepliesTrue;
    hide Possible;
  }

  lemma ServedForwards(y: System, e: Event)
    requires ForwardsOwned(y) && Possible(y.server, e)
    requires e.Ask? ==> e.r.cid in y.owners && y.owners[e.r.cid] == Owner(e.r.client, e.r.addr)
    ensures ForwardsOwned(Served(y, e))
  {
    hide Handle;
    var z := Served(y, e);
    forall f | f in z.forwarded ensures f.Forwarded? && Owns(z, f.cid, f.addr) {
      if f !in y.forwarded { ForwardsTruly(y.server, e, f); }
    }
  }

  lemma ServedReplies(y: System, e: Event)
    requires RequestsOwned(y) && ReportsTrue(y) && RepliesTrue(y) && Possible(y.server, e)
    requires e.Result? && e.success && e.reqid.Some? ==> Report(e.reqid.value, e.cid, true) in y.reports
    ensures RepliesTrue(Served(y, e))
  {
    hide Handle;
    hide RequestsOwned;
    hide ReportsTrue;
    var z := Served(y, e);
    var out := Handle(y.server, e).1;
    forall i | 0 <= i < |z.replies| && z.replies[i].Replied? && z.replies[i].success
      ensures Hello(z.replies[i].r.addr, z.replies[i].r.cid) in z.hellos
    {
      if i >= |y.replies| {
        var r := z.replies[i].r;
        assert z.replies[i] == out[i - |y.replies|];
        RepliesTruly(y.server, e, r);
        ReplyHasHello(y, e, r);
      }
    }
  }

  lemma ServedRequests(y: System, e: Event)
    requires RequestsOwned(y) && Possible(y.server, e)
    requires e.Ask? ==> e.r.cid in y.owners && y.owners[e.r.cid] == Owner(e.r.client, e.r.addr)
    ensures RequestsOwned(Served(y, e))
  {
    var z := Served(y, e);
    forall id | id in z.server.requests
      ensures var r := z.server.requests[id]; r.cid in z.owners && z.owners[r.cid] == Owner(r.client, r.addr)
    {
      HoldsOnlyAsked(y.server, e, id);
    }
  }

  lemma ReplyHasHello(y: System, e: Event, r: Request)
    requires RequestsOwned(y) && ReportsTrue(y)
    requires e.Result? && e.success && e.reqid.Some? && e.reqid.value in y.server.requests
    requires y.server.requests[e.reqid.value] == r && e.cid == r.cid && Report(e.reqid.value, e.cid, true) in y.reports
    ensures Hello(r.addr, r.cid) in y.hellos
  {
    assert y.owners[r.cid].addr == r.addr;
  }

  lemma AskSafe(y: System, r: Request)
    requires Safe(y) && (r.cid in y.owners ==> y.owners[r.cid] == Owner(r.client, r.addr))
    ensures Safe(Asked(y, r))
  {
    hide Linked;
    var z := Asked(y, r);
    assert OwnersGrow(y, z);
    assert z.server == y.server && z.hellos == y.hellos && z.forwarded == y.forwarded && z.reports == y.reports;
  }

  /** A report of success is true because the hello was written first. */
  lemma ReversedSafe(y: System, f: Out, a: Attempt)
    requires Safe(y) && f in y.forwarded && f.Forwarded?
    ensures Safe(Reversed(y, f, a))
  {
    hide Linked;
  }

  lemma AcceptSafe(y: System, hello: Hello)
    requires Safe(y) && hello in y.hellos
    ensures Safe(Next(y, ClientAccepts(hello)))
  {
    hide Linked;
    var k := (hello.addr, hello.cid);
    var z := Next(y, ClientAccepts(hello));
    assert forall j :: j in z.waiting ==> j in y.waiting && z.waiting[j] == y.waiting[j];
  }

  /** Every step of every participant keeps the system safe. */
  lemma NextSafe(y: System, t: Step)
    requires Safe(y) && Enabled(y, t)
    ensures Safe(Next(y, t))
  {
    hide Safe;
    hide Possible;
    match t
    case ServerDoes(e) => ServedSafe(y, e);
    case ClientAsks(r, ok) =>
      AskSafe(y, r);
      ServedSafe(Asked(y, r), Ask(r, ok));
    case DaemonReverses(f, a) => ReversedSafe(y, f, a);
    case ServerHears(from, report, gone, goneLater) =>
      assert Possible(y.server, EventOf(t)) by { HearsPossible(y.server, EventOf(t)); }
      ServedSafe(y, EventOf(t));
    case ClientAccepts(hello) => AcceptSafe(y, hello);
    case ClientGivesUp(addr, cid) => GiveUpSafe(y, addr, cid);
  }

  lemma HearsPossible(s: Server, e: Event)
    requires e.Result? && e.from in s.targets
    ensures Possible(s, e)
  {
  }

  lemma GiveUpSafe(y: System, addr: string, cid: string)
    requires Safe(y)
    ensures Safe(y.(waiting := y.waiting - {(addr, cid)}))
  {
    hide Linked;
  }

  predicate IsHistory(ys: seq<System>, ts: seq<Step>) {
    && |ys| == |ts| + 1
    && forall i :: 0 <= i < |ts| ==> Enabled(ys[i], ts[i]) && ys[i + 1] == Next(ys[i], ts[i])
  }

  predicate Fresh(y: System) {
    && Linked(y.server) && y.server.requests == map[] && y.forwarded == {} && y.hellos == {}
    && y.reports == {} && y.replies == [] && y.waiting == map[] && y.attached == []
  }

  lemma {:induction false} HistorySafe(ys: seq<System>, ts: seq<Step>, i: nat)
    requires IsHistory(ys, ts) && Fresh(ys[0]) && i < |ys|
    ensures Safe(ys[i])
  {
    if i > 0 {
      HistorySafe(ys, ts, i - 1);
      NextSafe(ys[i - 1], ts[i - 1]);
      hide Safe;
      hide Next;
      hide Enabled;
    }
  }

  /**
   In every run: whenever the broker has told a client that its request
   succeeded, a daemon has already written the hello with the client's connect
   id to the client's address; and every connection attached to a client
   carries that client's own connect id and was made to its address.
   */
  lemma EndToEnd(ys: seq<System>, ts: seq<Step>, i: nat)
    requires IsHistory(ys, ts) && Fresh(ys[0]) && i < |ys|
    ensures RepliesTrue(ys[i]) && AttachedTrue(ys[i])
  {
    HistorySafe(ys, ts, i);
  }

  // ---------- an exchange that goes well ----------

  const WENT_WELL := Attempt(true, true, true, true, false)

  /** A client's request, the daemon's connection, the client's acceptance and the broker's reply. */
  function Exchange(r: Request, f: Out): seq<Step>
    requires f.Forwarded?
  {
    [ClientAsks(r, true), DaemonReverses(f, WENT_WELL), ClientAccepts(Hello(f.addr, f.cid)),
     ServerHears(f.to, Report(f.id, f.cid, true), false, false)]
  }

  /** A request for a registered target is forwarded, and no message that was out is lost. */
  lemma RequestForwarded(y: System, r: Request)
    requires Safe(y) && Enabled(y, ClientAsks(r, true)) && r.target in y.server.targets
    ensures var z := Next(y, ClientAsks(r, true));
      && y.forwarded <= z.forwarded && y.replies <= z.replies && z.hellos == y.hellos && z.reports == y.reports
      && (r.addr, r.cid) in z.waiting && z.waiting[(r.addr, r.cid)] == r.client
      && exists f :: f in z.forwarded && f.Forwarded? && IsFor(f, y, z, r)
  {
    AskAnswered(y.server, r, true);
    var (server, out) := Handle(y.server, Ask(r, true));
    assert out[0] in out;
    ForwardsTruly(y.server, Ask(r, true), out[0]);
    hide Handle;
    hide Possible;
    var z := Next(y, ClientAsks(r, true));
    assert out[0] in z.forwarded && IsFor(out[0], y, z, r);
  }

  /** `f` is the message about the request that was just asked. */
  predicate IsFor(f: Out, y: System, z: System, r: Request) {
    && f.Forwarded? && f.to == r.target && f.addr == r.addr && f.cid == r.cid
    && f.id !in y.server.requests && f.id in z.server.requests && z.server.requests[f.id] == r
  }

  /** When everything goes well the client gets its own connection, and hears that it did. */
  lemma ExchangeCompletes(y: System, r: Request) returns (f: Out, ys: seq<System>)
    requires Safe(y) && Enabled(y, ClientAsks(r, true)) && r.target in y.server.targets
    ensures f.Forwarded? && IsHistory(ys, Exchange(r, f)) && ys[0] == y
    ensures ys[4].attached == y.attached + [Attachment(r.client, r.cid, Hello(r.addr, r.cid))]
    ensures ys[4].replies == ys[1].replies + [Replied(r, true)]
    ensures (r.addr, r.cid) !in ys[4].waiting && f.id !in ys[4].server.requests
  {
    RequestForwarded(y, r);
    var y1 := Next(y, ClientAsks(r, true));
    f :| f in y1.forwarded && f.Forwarded? && IsFor(f, y, y1, r);
    AskKeeps(y, r);
    hide Possible;
    hide Safe;
    hide Handle;
    var ts := Exchange(r, f);
    var y2 := Next(y1, ts[1]);
    var y3 := Next(y2, ts[2]);
    assert Enabled(y3, ts[3]);
    var y4 := Next(y3, ts[3]);
    ys := [y, y1, y2, y3, y4];
    ResultAnswered(y3.server, f.to, f.id, true);
  }

  lemma AskKeeps(y: System, r: Request)
    requires Enabled(y, ClientAsks(r, true)) && r.target in y.server.targets
    ensures var z := Next(y, ClientAsks(r, true)); r.target in z.server.targets && z.attached == y.attached
  {
    AskAnswered(y.server, r, true);
    hide Handle;
    hide Possible;
  }

  /** The broker's own steps change its tables as its handlers do, and everything it says goes out. */
  lemma BrokerSteps(y: System, e: Event)
    requires Enabled(y, ServerDoes(e))
    ensures var z, out := Next(y, ServerDoes(e)), Handle(y.server, e).1;
      && z.server == Handle(y.server, e).0 && z.replies == y.replies + out
      && y.forwarded <= z.forwarded && (forall o :: o in out && o.Forwarded? ==> o in z.forwarded)
      && z.waiting == y.waiting && z.attached == y.attached
  {
    hide Handle;
    hide Possible;
  }

  /** A connection that a client accepted, or gave up on, is not attached again. */
  lemma AcceptedOnce(y: System, hello: Hello)
    requires Enabled(y, ClientAccepts(hello))
    ensures var z := Next(y, ClientAccepts(hello));
      Enabled(z, ClientAccepts(hello)) && Next(z, ClientAccepts(hello)) == z
    ensures var z := Next(y, ClientGivesUp(hello.addr, hello.cid));
      && Enabled(z, ClientAccepts(hello)) && Next(z, ClientAccepts(hello)) == z && z.attached == y.attached
      && forall k :: k != (hello.addr, hello.cid) && k in y.waiting ==> k in z.waiting && z.waiting[k] == y.waiting[k]
  {
  }

  /** A daemon that could not connect or write reports the failure. */
  lemma FailuresReported(y: System, f: Out, a: Attempt)
    requires Enabled(y, DaemonReverses(f, a))
    ensures var z := Next(y, DaemonReverses(f, a));
      && Report(f.id, f.cid, a.connected && a.command && a.ad && a.end) in z.reports && y.reports <= z.reports
      && y.hellos <= z.hellos && (!a.connected ==> z.hellos == y.hellos)
      && (a.connected && a.command && a.ad && a.end ==> Hello(f.addr, f.cid) in z.hellos)
  {
  }
}
