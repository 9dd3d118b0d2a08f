/**
 The connection broker: its tables of targets, requests and reconnect records,
 and one function per handler.
 */
module CcbServer {
  import opened Values

  /** Identifiers are unsigned long and wrap around. */
  const ID_RANGE: nat := 0x1_0000_0000_0000_0000

  type Id = nat

  /** A client waiting for a connection from `target` to its own address `addr`. */
  datatype Request = Request(target: Id, addr: string, cid: string, client: nat)

  /** A registered daemon; `watched` while its socket is registered for results. */
  datatype Target = Target(requests: map<Id, Request>, pending: int, watched: bool, ip: string)

  /** What a daemon needs to reclaim its identifier. */
  datatype Info = Info(cookie: nat, ip: string, lastAlive: int)

  datatype Server = Server(
    targets: map<Id, Target>,
    requests: map<Id, Request>,
    reconnect: map<Id, Info>,
    nextId: Id,
    nextRequest: Id,
    lastSweep: int,
    interval: int)

  /** What the server sends. */
  datatype Out =
    | Forwarded(to: Id, id: Id, addr: string, cid: string)
    | Replied(r: Request, success: bool)
    | Rejected(client: nat)

  datatype Event =
    | Register(ip: string, claim: Option<(Id, nat)>, cookie: nat, now: int, replyOk: bool)
    | Ask(r: Request, forwardOk: bool)
    | Result(from: Id, reqid: Option<Id>, cid: string, success: bool, gone: bool, goneLater: bool)
    | Heartbeat(from: Id, sendOk: bool)
    | TargetGone(from: Id)
    | ClientGone(id: Id)
    | Sweep(now: int)

  // ---------- identifiers ----------

  /** The value of `next` after `k` increments. */
  function Slot(next: Id, k: nat): (id: Id)
    ensures id < ID_RANGE
  {
    (next + k) % ID_RANGE
  }

  /** How many taken identifiers `next++` runs over, from `k` on. */
  function Probe(next: Id, taken: set<Id>, k: nat): (n: nat)
    requires k <= ID_RANGE
    ensures k <= n <= ID_RANGE
    ensures forall j :: k <= j < n ==> Slot(next, j) in taken
    ensures n < ID_RANGE ==> Slot(next, n) !in taken
    decreases ID_RANGE - k
  {
    if k == ID_RANGE || Slot(next, k) !in taken then k else Probe(next, taken, k + 1)
  }

  function Allocate(next: Id, taken: set<Id>): Id {
    Slot(next, Probe(next, taken, 0))
  }

  function AfterAllocate(next: Id, taken: set<Id>): Id {
    Slot(next, Probe(next, taken, 0) + 1)
  }

  predicate HasRoom(taken: set<Id>) {
    exists id :: 0 <= id < ID_RANGE && id !in taken
  }

  /** The allocation loop ends exactly when some identifier is free, and then yields a free one. */
  lemma AllocateFinds(next: Id, taken: set<Id>)
    requires next < ID_RANGE
    ensures Probe(next, taken, 0) < ID_RANGE <==> HasRoom(taken)
    ensures HasRoom(taken) ==> Allocate(next, taken) !in taken && Allocate(next, taken) < ID_RANGE
  {
    var n := Probe(next, taken, 0);
    if HasRoom(taken) {
      var id :| 0 <= id < ID_RANGE && id !in taken;
      var j := if id >= next then id - next else id - next + ID_RANGE;
      Wraps(next, id, j);
      hide Slot;
      assert Slot(next, j) !in taken;
    } else {
      hide Slot;
      assert n < ID_RANGE ==> Slot(next, n) !in taken;
    }
  }

  lemma Wraps(next: Id, id: Id, j: nat)
    requires next < ID_RANGE && id < ID_RANGE && j == if id >= next then id - next else id - next + ID_RANGE
    ensures Slot(next, j) == id
  {
  }

  /** How many identifiers after `a` the identifier `b` comes, going round. */
  function Distance(a: Id, b: Id): int {
    if b >= a then b - a else b - a + ID_RANGE
  }

  /** The allocated identifier is the nearest free one, and the next allocation starts right after it. */
  lemma AllocateNearest(next: Id, taken: set<Id>, id: Id)
    requires next < ID_RANGE && id < ID_RANGE && id !in taken
    ensures Allocate(next, taken) < ID_RANGE && Distance(next, Allocate(next, taken)) <= Distance(next, id)
    ensures AfterAllocate(next, taken) == if Allocate(next, taken) == ID_RANGE - 1 then 0 else Allocate(next, taken) + 1
  {
    var j, n := Distance(next, id), Probe(next, taken, 0);
    Wraps(next, id, j);
    assert n <= j by { hide Slot; }
    SlotDistance(next, n);
  }

  lemma SlotDistance(next: Id, k: nat)
    requires next < ID_RANGE && k < ID_RANGE
    ensures Distance(next, Slot(next, k)) == k
    ensures Slot(next, k + 1) == if Slot(next, k) == ID_RANGE - 1 then 0 else Slot(next, k) + 1
  {
  }

  function UpTo(n: nat): (s: set<Id>)
    ensures |s| == n && forall id :: id in s <==> 0 <= id < n
  {
    if n == 0 then {} else UpTo(n - 1) + {n - 1}
  }

  /** Fewer records than identifiers leave one free. */
  lemma {:induction false} RoomByCount(taken: set<Id>)
    requires |taken| < ID_RANGE
    ensures HasRoom(taken)
  {
    var all := UpTo(ID_RANGE);
    if all <= taken { SubsetCount(all, taken); }
    assert exists id :: id in all && id !in taken;
  }

  lemma {:induction false} SubsetCount(a: set<Id>, b: set<Id>)
    requires a <= b
    ensures |a| <= |b|
  {
    if a != {} {
      var x :| x in a;
      SubsetCount(a - {x}, b - {x});
    }
  }

  // ---------- the handlers ----------

  /** `RemoveRequest`; the request may still be in the table of its target. */
  function RemoveRequest(s: Server, id: Id): Server
    requires id in s.requests
  {
    var c := s.requests[id].target;
    var targets :=
      if c in s.targets then s.targets[c := s.targets[c].(requests := s.targets[c].requests - {id})] else s.targets;
    s.(requests := s.requests - {id}, targets := targets)
  }

  /** `RemoveTarget`: every request of the target is dropped first. */
  function RemoveTarget(s: Server, c: Id): Server
    requires c in s.targets
  {
    s.(requests := s.requests - s.targets[c].requests.Keys, targets := s.targets - {c})
  }

  predicate Reclaims(s: Server, ip: string, claim: Option<(Id, nat)>) {
    && claim.Some? && claim.value.0 in s.reconnect
    && s.reconnect[claim.value.0].ip == ip && s.reconnect[claim.value.0].cookie == claim.value.1
  }

  function Taken(s: Server): set<Id> {
    s.reconnect.Keys + s.targets.Keys
  }

  /** The identifier a registering daemon gets. */
  function Assigned(s: Server, ip: string, claim: Option<(Id, nat)>): Id {
    if Reclaims(s, ip, claim) then claim.value.0 else Allocate(s.nextId, Taken(s))
  }

  /** `ReconnectTarget` */
  function Reclaimed(s: Server, c: Id, ip: string, now: int): Server
    requires c in s.reconnect
  {
    var alive := s.(reconnect := s.reconnect[c := s.reconnect[c].(lastAlive := now)]);
    var dropped := if c in s.targets then RemoveTarget(alive, c) else alive;
    WithTarget(dropped, c, ip)
  }

  function WithTarget(s: Server, c: Id, ip: string): Server {
    s.(targets := s.targets[c := Target(map[], 0, false, ip)])
  }

  /** `AddTarget` */
  function Added(s: Server, ip: string, cookie: nat, now: int): Server {
    var c := Allocate(s.nextId, Taken(s));
    var known := s.(reconnect := s.reconnect[c := Info(cookie, ip, now)], nextId := AfterAllocate(s.nextId, Taken(s)));
    WithTarget(known, c, ip)
  }

  function Registered(s: Server, ip: string, claim: Option<(Id, nat)>, cookie: nat, now: int): Server {
    if Reclaims(s, ip, claim) then Reclaimed(s, claim.value.0, ip, now) else Added(s, ip, cookie, now)
  }

  function WithRequest(s: Server, id: Id, r: Request): Server
    requires r.target in s.targets
  {
    var t := s.targets[r.target];
    s.(requests := s.requests[id := r],
       targets := s.targets[r.target := Target(t.requests[id := r], t.pending + 1, true, t.ip)])
  }

  /** `AddRequest` */
  function AddRequest(s: Server, r: Request): Server
    requires r.target in s.targets
  {
    WithRequest(s, Allocate(s.nextRequest, s.requests.Keys), r).(
      nextRequest := AfterAllocate(s.nextRequest, s.requests.Keys))
  }

  /** `decPendingRequestResults` */
  function Received(t: Target): Target {
    t.(pending := t.pending - 1, watched := t.watched && t.pending - 1 > 0)
  }

  /** The records with those of registered targets marked alive. */
  function Marked(s: Server, now: int): map<Id, Info> {
    map c | c in s.reconnect :: if c in s.targets then s.reconnect[c].(lastAlive := now) else s.reconnect[c]
  }

  /** The records alive within two intervals. */
  function Pruned(infos: map<Id, Info>, now: int, interval: int): map<Id, Info> {
    map c | c in infos && now - infos[c].lastAlive <= 2 * interval :: infos[c]
  }

  function SweptInfo(s: Server, now: int): map<Id, Info> {
    Pruned(Marked(s, now), now, s.interval)
  }

  /** What the handler needs: a free identifier, and a socket that still is the server's. */
  predicate Possible(s: Server, e: Event) {
    match e
    case Register(ip, claim, _, _, _) => Reclaims(s, ip, claim) || HasRoom(Taken(s))
    case Ask(_, _) => HasRoom(s.requests.Keys)
    case Result(from, _, _, _, _, _) => from in s.targets
    case Heartbeat(from, _) => from in s.targets
    case TargetGone(from) => from in s.targets
    case ClientGone(id) => id in s.requests
    case Sweep(_) => s.interval >= 0
  }

  /** One run of a handler. */
  function Handle(s: Server, e: Event): (Server, seq<Out>)
    requires Possible(s, e)
  {
    match e
    case Register(ip, claim, cookie, now, replyOk) =>
      var added := Registered(s, ip, claim, cookie, now);
      (if replyOk then added else RemoveTarget(added, Assigned(s, ip, claim)), [])
    case Ask(r, forwardOk) =>
      if r.target !in s.targets then (s, [Rejected(r.client)])
      else
        var id := Allocate(s.nextRequest, s.requests.Keys);
        var added := AddRequest(s, r);
        if forwardOk then (added, [Forwarded(r.target, id, r.addr, r.cid)])
        else (RemoveRequest(added, id), [Replied(r, false)])
    case Result(from, id, cid, success, gone, goneLater) =>
      var s1 := s.(targets := s.targets[from := Received(s.targets[from])]);
      if id.None? then (RemoveTarget(s1, from), [])
      else if id.value !in s1.requests then (s1, [])
      else if gone then (RemoveRequest(s1, id.value), [])
      else if cid != s1.requests[id.value].cid then (RemoveTarget(s1, from), [])
      else
        (RemoveRequest(s1, id.value),
         if success && goneLater then [] else [Replied(s1.requests[id.value], success)])
    case Heartbeat(from, sendOk) => (if sendOk then s else RemoveTarget(s, from), [])
    case TargetGone(from) => (RemoveTarget(s, from), [])
    case ClientGone(id) => (RemoveRequest(s, id), [])
    case Sweep(now) =>
      if s.lastSweep + s.interval > now then (s, [])
      else (s.(reconnect := SweptInfo(s, now), lastSweep := now), [])
  }

  // ---------- the tables stay linked ----------

  predicate RequestsLinked(s: Server) {
    forall id :: id in s.requests ==>
      && s.requests[id].target in s.targets
      && id in s.targets[s.requests[id].target].requests
      && s.targets[s.requests[id].target].requests[id] == s.requests[id]
  }

  predicate TargetsLinked(s: Server) {
    forall c :: c in s.targets ==> forall id :: id in s.targets[c].requests ==>
      id in s.requests && s.requests[id] == s.targets[c].requests[id] && s.requests[id].target == c
  }

  /** Every registered target has a record and is watched while results are due. */
  predicate TargetsKept(s: Server) {
    forall c :: c in s.targets ==> c in s.reconnect && (s.targets[c].pending > 0 ==> s.targets[c].watched)
  }

  predicate Linked(s: Server) {
    RequestsLinked(s) && TargetsLinked(s) && TargetsKept(s) && s.nextId < ID_RANGE && s.nextRequest < ID_RANGE
  }

  /** A request is in the global table exactly when its registered target holds it. */
  lemma LinkedMeans(s: Server, id: Id, r: Request)
    requires Linked(s)
    ensures (id in s.requests && s.requests[id] == r) <==>
            (r.target in s.targets && id in s.targets[r.target].requests && s.targets[r.target].requests[id] == r)
  {
  }

  lemma RemoveRequestLinked(s: Server, id: Id)
    requires Linked(s) && id in s.requests
    ensures Linked(RemoveRequest(s, id))
  {
  }

  lemma RemoveTargetLinked(s: Server, c: Id)
    requires Linked(s) && c in s.targets
    ensures Linked(RemoveTarget(s, c))
  {
    assert forall id :: id in s.requests && s.requests[id].target == c ==> id in s.targets[c].requests;
  }

  lemma WithTargetLinked(s: Server, c: Id, ip: string)
    requires Linked(s) && c !in s.targets && c in s.reconnect
    ensures Linked(WithTarget(s, c, ip))
  {
  }

  lemma WithRecordLinked(s: Server, c: Id, info: Info, next: Id)
    requires Linked(s) && next < ID_RANGE
    ensures Linked(s.(reconnect := s.reconnect[c := info], nextId := next))
  {
  }

  lemma RegisteredLinked(s: Server, ip: string, claim: Option<(Id, nat)>, cookie: nat, now: int)
    requires Linked(s) && (Reclaims(s, ip, claim) || HasRoom(Taken(s)))
    ensures Linked(Registered(s, ip, claim, cookie, now))
    ensures Assigned(s, ip, claim) in Registered(s, ip, claim, cookie, now).targets
  {
    var c := Assigned(s, ip, claim);
    if Reclaims(s, ip, claim) {
      var alive := s.(reconnect := s.reconnect[c := s.reconnect[c].(lastAlive := now)]);
      WithRecordLinked(s, c, s.reconnect[c].(lastAlive := now), s.nextId);
      if c in s.targets { RemoveTargetLinked(alive, c); }
      hide Linked;
      WithTargetLinked(if c in s.targets then RemoveTarget(alive, c) else alive, c, ip);
    } else {
      AllocateFinds(s.nextId, Taken(s));
      hide Allocate;
      hide AfterAllocate;
      hide Linked;
      WithRecordLinked(s, c, Info(cookie, ip, now), AfterAllocate(s.nextId, Taken(s)));
      var s1 := s.(reconnect := s.reconnect[c := Info(cookie, ip, now)], nextId := AfterAllocate(s.nextId, Taken(s)));
      WithTargetLinked(s1, c, ip);
    }
  }

  lemma WithRequestLinked(s: Server, id: Id, r: Request)
    requires Linked(s) && r.target in s.targets && id !in s.requests
    ensures Linked(WithRequest(s, id, r)) && id !in s.targets[r.target].requests
  {
  }

  lemma AddRequestLinked(s: Server, r: Request)
    requires Linked(s) && r.target in s.targets && HasRoom(s.requests.Keys)
    ensures Linked(AddRequest(s, r))
    ensures Allocate(s.nextRequest, s.requests.Keys) !in s.requests
    ensures Allocate(s.nextRequest, s.requests.Keys) !in s.targets[r.target].requests
    ensures Allocate(s.nextRequest, s.requests.Keys) in AddRequest(s, r).requests
  {
    AllocateFinds(s.nextRequest, s.requests.Keys);
    hide Allocate;
    hide AfterAllocate;
    WithRequestLinked(s, Allocate(s.nextRequest, s.requests.Keys), r);
    assert AfterAllocate(s.nextRequest, s.requests.Keys) < ID_RANGE by { AfterInRange(s.nextRequest, s.requests.Keys); }
    var s1 := WithRequest(s, Allocate(s.nextRequest, s.requests.Keys), r);
    RenumberLinked(s1, AfterAllocate(s.nextRequest, s.requests.Keys));
  }

  lemma RenumberLinked(s: Server, next: Id)
    requires Linked(s) && next < ID_RANGE
    ensures Linked(s.(nextRequest := next))
  {
  }

  lemma AfterInRange(next: Id, taken: set<Id>)
    ensures AfterAllocate(next, taken) < ID_RANGE
  {
  }

  /** A sweep never drops the record of a registered target. */
  lemma SweepLinked(s: Server, now: int)
    requires Linked(s) && s.interval >= 0
    ensures Linked(s.(reconnect := SweptInfo(s, now), lastSweep := now))
    ensures forall c :: c in SweptInfo(s, now) <==>
              c in s.reconnect && (c in s.targets || now - s.reconnect[c].lastAlive <= 2 * s.interval)
  {
  }

  /** With a negative interval a sweep drops the records it has just marked. */
  lemma SweepKeepsRecords(s: Server, now: int)
    requires Linked(s) && s.targets != map[]
    ensures TargetsKept(s.(reconnect := SweptInfo(s, now), lastSweep := now)) <==> s.interval >= 0
  {
    var c :| c in s.targets;
    assert c in SweptInfo(s, now) <==> s.interval >= 0;
  }

  /** Every handler keeps the tables linked. */
  lemma HandleLinked(s: Server, e: Event)
    requires Linked(s) && Possible(s, e)
    ensures Linked(Handle(s, e).0)
  {
    hide Linked;
    hide HasRoom;
    hide Registered;
    hide AddRequest;
    hide RemoveRequest;
    hide RemoveTarget;
    match e
    case Register(ip, claim, cookie, now, replyOk) =>
      RegisteredLinked(s, ip, claim, cookie, now);
      if !replyOk { RemoveTargetLinked(Registered(s, ip, claim, cookie, now), Assigned(s, ip, claim)); }
    case Ask(r, forwardOk) =>
      if r.target in s.targets {
        AddRequestLinked(s, r);
        if !forwardOk { RemoveRequestLinked(AddRequest(s, r), Allocate(s.nextRequest, s.requests.Keys)); }
      }
    case Result(from, id, cid, _, gone, _) =>
      ReceivedLinked(s, from);
      var s1 := s.(targets := s.targets[from := Received(s.targets[from])]);
      if id.None? || (id.value in s1.requests && !gone && cid != s1.requests[id.value].cid) {
        RemoveTargetLinked(s1, from);
      } else if id.value in s1.requests {
        RemoveRequestLinked(s1, id.value);
      }
    case Heartbeat(from, sendOk) => if !sendOk { RemoveTargetLinked(s, from); }
    case TargetGone(from) => RemoveTargetLinked(s, from);
    case ClientGone(id) => RemoveRequestLinked(s, id);
    case Sweep(now) => SweepLinked(s, now);
  }

  lemma ReceivedLinked(s: Server, c: Id)
    requires Linked(s) && c in s.targets
    ensures Linked(s.(targets := s.targets[c := Received(s.targets[c])]))
  {
  }

  // ---------- over runs ----------

  predicate IsRun(ss: seq<Server>, es: seq<Event>) {
    && |ss| == |es| + 1
    && forall i :: 0 <= i < |es| ==> Possible(ss[i], es[i]) && ss[i + 1] == Handle(ss[i], es[i]).0
  }

  lemma {:induction false} AlwaysLinked(ss: seq<Server>, es: seq<Event>, i: nat)
    requires IsRun(ss, es) && Linked(ss[0]) && i < |ss|
    ensures Linked(ss[i])
  {
    hide Linked;
    hide Possible;
    hide Handle;
    if i > 0 {
      AlwaysLinked(ss, es, i - 1);
      HandleLinked(ss[i - 1], es[i - 1]);
    }
  }

  // ---------- what the server says ----------

  /** Success is only ever reported for a request whose identifier and connect id a target gave back. */
  lemma RepliesTruly(s: Server, e: Event, r: Request)
    requires Possible(s, e) && Replied(r, true) in Handle(s, e).1
    ensures e.Result? && e.success && e.reqid.Some? && e.reqid.value in s.requests
    ensures s.requests[e.reqid.value] == r && e.cid == r.cid
  {
    hide HasRoom;
    hide Allocate;
    hide AddRequest;
    hide Registered;
    hide RemoveRequest;
    hide RemoveTarget;
  }

  lemma AllocatedNext(next: Id, taken: set<Id>)
    requires next < ID_RANGE && HasRoom(taken)
    ensures Allocate(next, taken) !in taken && Allocate(next, taken) < ID_RANGE
    ensures AfterAllocate(next, taken) == if Allocate(next, taken) == ID_RANGE - 1 then 0 else Allocate(next, taken) + 1
  {
    AllocateFinds(next, taken);
    AllocateNearest(next, taken, Allocate(next, taken));
  }

  /**
   What the server forwards is the request it was just asked, to the target that
   was asked for, under an identifier that was free and now is the request's.
   */
  lemma ForwardsTruly(s: Server, e: Event, o: Out)
    requires Possible(s, e) && o in Handle(s, e).1 && o.Forwarded?
    ensures e.Ask? && o.addr == e.r.addr && o.cid == e.r.cid
    ensures o.to == e.r.target && o.to in s.targets
    ensures o.id in Handle(s, e).0.requests && Handle(s, e).0.requests[o.id] == e.r
    ensures s.nextRequest < ID_RANGE ==> o.id !in s.requests
    ensures s.nextRequest < ID_RANGE ==> Handle(s, e).0.nextRequest == if o.id == ID_RANGE - 1 then 0 else o.id + 1
  {
    if s.nextRequest < ID_RANGE && e.Ask? { AllocatedNext(s.nextRequest, s.requests.Keys); }
    hide HasRoom;
    hide Allocate;
    hide Registered;
    hide RemoveRequest;
    hide RemoveTarget;
  }

  /**
   A request is answered: forwarded if its target is there and can be told,
   refused at once if the target cannot be told, and rejected if it is not there.
   */
  lemma AskAnswered(s: Server, r: Request, forwardOk: bool)
    requires Possible(s, Ask(r, forwardOk))
    ensures var (s1, out) := Handle(s, Ask(r, forwardOk));
      && |out| == 1
      && (r.target !in s.targets ==> out == [Rejected(r.client)] && s1 == s)
      && (r.target in s.targets && forwardOk ==>
            && out[0].Forwarded? && r.target in s1.targets
            && s1.targets[r.target].pending == s.targets[r.target].pending + 1 && s1.targets[r.target].watched)
      && (r.target in s.targets && !forwardOk ==> out == [Replied(r, false)])
      && (r.target in s.targets && !forwardOk && s.nextRequest < ID_RANGE ==> s1.requests == s.requests)
  {
    if s.nextRequest < ID_RANGE { AllocateFinds(s.nextRequest, s.requests.Keys); }
    hide HasRoom;
    hide Allocate;
    hide AfterAllocate;
    if r.target in s.targets && !forwardOk && s.nextRequest < ID_RANGE {
      var id := Allocate(s.nextRequest, s.requests.Keys);
      assert s.requests[id := r] - {id} == s.requests;
    }
  }

  /** A result with the right connect id is passed on to a client that is there, and finishes the request. */
  lemma ResultAnswered(s: Server, from: Id, id: Id, success: bool)
    requires from in s.targets && id in s.requests
    ensures var (s1, out) := Handle(s, Result(from, Some(id), s.requests[id].cid, success, false, false));
      && out == [Replied(s.requests[id], success)]
      && s1.requests == s.requests - {id} && s1.targets.Keys == s.targets.Keys
      && s1.targets[from].pending == s.targets[from].pending - 1
      && (s1.targets[from].watched <==> s.targets[from].watched && s1.targets[from].pending > 0)
  {
    hide HasRoom;
  }

  /** A result that cannot be matched is not passed on: a wrong connect id or no identifier disowns the target. */
  lemma ResultRefused(s: Server, from: Id, id: Option<Id>, cid: string, success: bool, gone: bool, goneLater: bool)
    requires from in s.targets
    requires id.None? || id.value !in s.requests || gone || cid != s.requests[id.value].cid
    ensures var (s1, out) := Handle(s, Result(from, id, cid, success, gone, goneLater));
      && out == []
      && (from in s1.targets <==> id.Some? && (id.value !in s.requests || gone))
      && (from in s1.targets ==>
            && s1.targets[from].pending == s.targets[from].pending - 1
            && (s1.targets[from].watched <==> s.targets[from].watched && s1.targets[from].pending > 0))
      && (id.Some? && id.value !in s.requests ==> s1.requests == s.requests)
      && (id.Some? && id.value in s.requests && gone ==> s1.requests == s.requests - {id.value})
  {
    hide HasRoom;
  }

  /** A daemon gets back its identifier if it gives the address and the cookie on record, and else a free one. */
  lemma RegistrationAssigns(s: Server, ip: string, claim: Option<(Id, nat)>, cookie: nat, now: int)
    requires Possible(s, Register(ip, claim, cookie, now, true)) && s.nextId < ID_RANGE
    ensures var s1, c := Handle(s, Register(ip, claim, cookie, now, true)).0, Assigned(s, ip, claim);
      && c in s1.targets && s1.targets[c] == Target(map[], 0, false, ip)
      && s1.targets - {c} == s.targets - {c}
      && (if claim.Some? && claim.value.0 in s.reconnect && s.reconnect[claim.value.0].ip == ip &&
             s.reconnect[claim.value.0].cookie == claim.value.1
          then c == claim.value.0 && s1.reconnect == s.reconnect[c := Info(claim.value.1, ip, now)]
          else
            && c !in s.reconnect && c !in s.targets && s1.reconnect == s.reconnect[c := Info(cookie, ip, now)]
            && s1.nextId == if c == ID_RANGE - 1 then 0 else c + 1)
  {
    if HasRoom(Taken(s)) { AllocatedNext(s.nextId, Taken(s)); }
    hide HasRoom;
    hide Allocate;
    hide AfterAllocate;
  }

  /** A target that goes takes along its requests and nothing else; a client that goes, its own request. */
  lemma DeparturesDrop(s: Server, c: Id, id: Id)
    requires Linked(s)
    ensures c in s.targets ==>
      var s1 := Handle(s, TargetGone(c)).0;
      && s1.targets == s.targets - {c} && s1.reconnect == s.reconnect
      && s1.requests == map k | k in s.requests && s.requests[k].target != c :: s.requests[k]
    ensures id in s.requests ==>
      && Handle(s, ClientGone(id)).0.requests == s.requests - {id}
      && Handle(s, ClientGone(id)).0.targets.Keys == s.targets.Keys
  {
    if c in s.targets {
      assert forall k :: k in s.requests ==> (s.requests[k].target == c <==> k in s.targets[c].requests);
    }
    hide HasRoom;
  }

  /** A sweep that is due keeps the record of every registered target and of every other one alive for two intervals. */
  lemma SweepKeeps(s: Server, now: int, c: Id)
    requires s.interval >= 0
    ensures var s1 := Handle(s, Sweep(now)).0;
      if now < s.lastSweep + s.interval then s1 == s
      else
        && s1.lastSweep == now && s1.targets == s.targets && s1.requests == s.requests
        && (c in s1.reconnect <==>
              c in s.reconnect && (c in s.targets || now - s.reconnect[c].lastAlive <= 2 * s.interval))
        && (c in s1.reconnect ==>
              s1.reconnect[c] == if c in s.targets then s.reconnect[c].(lastAlive := now) else s.reconnect[c])
  {
    hide HasRoom;
  }

  /** The server holds no request that nobody asked. */
  lemma HoldsOnlyAsked(s: Server, e: Event, id: Id)
    requires Possible(s, e) && id in Handle(s, e).0.requests
    ensures var r := Handle(s, e).0.requests[id]; (id in s.requests && r == s.requests[id]) || (e.Ask? && r == e.r)
  {
    hide HasRoom;
    hide Allocate;
    hide AfterAllocate;
    hide Pruned;
  }
}
