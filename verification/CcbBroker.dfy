/** `CCBServer` as it runs: one object whose tables the handlers update. */
module CcbBroker {
  import opened Values
  import S = CcbServer

  class Broker {
    var targets: map<S.Id, S.Target>
    var requests: map<S.Id, S.Request>
    var reconnect: map<S.Id, S.Info>
    var nextId: S.Id
    var nextRequest: S.Id
    var lastSweep: int
    const interval: int

    function State(): S.Server
      reads this
    {
      S.Server(targets, requests, reconnect, nextId, nextRequest, lastSweep, interval)
    }

    constructor (sweepInterval: int)
      ensures interval == sweepInterval && State() == S.Server(map[], map[], map[], 1, 1, 0, sweepInterval)
    {
      targets, requests, reconnect := map[], map[], map[];
      nextId, nextRequest, lastSweep, interval := 1, 1, 0, sweepInterval;
    }

    /** The request is in the table, so its removal cannot fail. */
    method RemoveRequest(id: S.Id)
      requires id in requests
      modifies this`requests, this`targets
      ensures State() == S.RemoveRequest(old(State()), id)
    {
      var c := requests[id].target;
      requests := requests - {id};
      if c in targets { targets := targets[c := targets[c].(requests := targets[c].requests - {id})]; }
    }

    /** Hangs up on the requests one by one; none of the removals can fail. */
    method RemoveTarget(c: S.Id)
      requires S.Linked(State()) && c in targets
      modifies this`requests, this`targets
      ensures State() == S.RemoveTarget(old(State()), c)
    {
      ghost var s, gone := State(), {};
      assert State() == Dropped(s, c, {}) by { DropNone(s, c); }
      while targets[c].requests != map[]
        invariant gone <= s.targets[c].requests.Keys && State() == Dropped(s, c, gone)
        decreases |targets[c].requests|
      {
        var id :| id in targets[c].requests;
        DropOne(s, c, gone, id);
        RemoveRequest(id);
        gone := gone + {id};
      }
      DropAll(s, c, gone);
      targets := targets - {c};
    }

    /** The loop of `AddTarget`: skips identifiers that are taken or kept for a reconnect. */
    method TakeTargetId() returns (c: S.Id)
      requires nextId < S.ID_RANGE && S.HasRoom(S.Taken(State()))
      modifies this`nextId
      ensures c == S.Allocate(old(nextId), S.Taken(old(State()))) && c !in reconnect && c !in targets
      ensures nextId == S.AfterAllocate(old(nextId), S.Taken(old(State())))
    {
      ghost var taken, start := reconnect.Keys + targets.Keys, nextId;
      ghost var n := S.Probe(start, taken, 0);
      S.AllocateFinds(start, taken);
      ghost var k := 0;
      assert nextId == S.Slot(start, 0);
      hide S.Slot;
      while true
        invariant k <= n && nextId == S.Slot(start, k)
        decreases n - k
      {
        c := nextId;
        nextId := S.Slot(nextId, 1);
        SlotNext(start, k);
        k := k + 1;
        if c in reconnect { continue; }
        if c !in targets { break; }
      }
      assert k - 1 == n;
    }

    /** The identifier has neither a target nor a record. */
    method AddTarget(ip: string, cookie: nat, now: int) returns (c: S.Id)
      requires S.Linked(State()) && S.HasRoom(S.Taken(State()))
      modifies this`targets, this`reconnect, this`nextId
      ensures State() == S.Added(old(State()), ip, cookie, now)
      ensures c == S.Allocate(old(nextId), S.Taken(old(State()))) && c !in old(reconnect) && c !in old(targets)
    {
      hide S.Allocate;
      hide S.AfterAllocate;
      c := TakeTargetId();
      targets := targets[c := S.Target(map[], 0, false, ip)];
      reconnect := reconnect[c := S.Info(cookie, ip, now)];
    }

    /** The existing target with this identifier, if any, is removed, so the insertion cannot fail. */
    method ReconnectTarget(c: S.Id, ip: string, cookie: nat, now: int) returns (ok: bool)
      requires S.Linked(State())
      modifies this`targets, this`requests, this`reconnect
      ensures ok == S.Reclaims(old(State()), ip, Some((c, cookie)))
      ensures State() == if ok then S.Reclaimed(old(State()), c, ip, now) else old(State())
    {
      if c !in reconnect || reconnect[c].ip != ip || reconnect[c].cookie != cookie { return false; }
      S.WithRecordLinked(State(), c, reconnect[c].(lastAlive := now), nextId);
      reconnect := reconnect[c := reconnect[c].(lastAlive := now)];
      if c in targets { RemoveTarget(c); }
      assert c !in targets;
      targets := targets[c := S.Target(map[], 0, false, ip)];
      ok := true;
    }

    /** The target has a record when the reply is written. */
    method HandleRegistration(ip: string, claim: Option<(S.Id, nat)>, cookie: nat, now: int, replyOk: bool)
      returns (c: S.Id)
      requires S.Linked(State()) && S.Possible(State(), S.Register(ip, claim, cookie, now, replyOk))
      modifies this
      ensures State() == S.Handle(old(State()), S.Register(ip, claim, cookie, now, replyOk)).0 && S.Linked(State())
      ensures c == S.Assigned(old(State()), ip, claim) && c in reconnect
    {
      ghost var s := State();
      S.HandleLinked(s, S.Register(ip, claim, cookie, now, replyOk));
      S.RegisteredLinked(s, ip, claim, cookie, now);
      hide S.Linked;
      var reconnected := false;
      if claim.Some? {
        c := claim.value.0;
        reconnected := ReconnectTarget(c, ip, claim.value.1, now);
      }
      if !reconnected { c := AddTarget(ip, cookie, now); }
      assert State() == S.Registered(s, ip, claim, cookie, now);
      assert c in reconnect by { RecordThere(State(), c); }
      if !replyOk { RemoveTarget(c); }
    }

    /** The loop of `AddRequest`: skips request identifiers still in use. */
    method TakeRequestId() returns (id: S.Id)
      requires nextRequest < S.ID_RANGE && S.HasRoom(requests.Keys)
      modifies this`nextRequest
      ensures id == S.Allocate(old(nextRequest), requests.Keys) && id !in requests
      ensures nextRequest == S.AfterAllocate(old(nextRequest), requests.Keys)
    {
      ghost var taken, start := requests.Keys, nextRequest;
      ghost var n := S.Probe(start, taken, 0);
      S.AllocateFinds(start, taken);
      ghost var k := 0;
      assert nextRequest == S.Slot(start, 0);
      hide S.Slot;
      while true
        invariant k <= n && nextRequest == S.Slot(start, k)
        decreases n - k
      {
        id := nextRequest;
        nextRequest := S.Slot(nextRequest, 1);
        SlotNext(start, k);
        k := k + 1;
        if id !in requests { break; }
      }
      assert k - 1 == n;
    }

    /** The identifier is new to the target as well, so neither insertion can fail. */
    method AddRequest(r: S.Request) returns (id: S.Id)
      requires S.Linked(State()) && r.target in targets && S.HasRoom(requests.Keys)
      modifies this`targets, this`requests, this`nextRequest
      ensures State() == S.AddRequest(old(State()), r) && id == S.Allocate(old(nextRequest), old(requests.Keys))
    {
      assert nextRequest < S.ID_RANGE;
      S.AddRequestLinked(State(), r);
      hide S.Linked;
      hide S.Allocate;
      hide S.AfterAllocate;
      id := TakeRequestId();
      var t := targets[r.target];
      assert id !in requests && id !in t.requests;
      requests := requests[id := r];
      targets := targets[r.target := S.Target(t.requests[id := r], t.pending + 1, true, t.ip)];
    }

    method HandleRequest(r: S.Request, forwardOk: bool) returns (out: seq<S.Out>)
      requires S.Linked(State()) && S.Possible(State(), S.Ask(r, forwardOk))
      modifies this
      ensures (State(), out) == S.Handle(old(State()), S.Ask(r, forwardOk)) && S.Linked(State())
    {
      S.HandleLinked(State(), S.Ask(r, forwardOk));
      if r.target !in targets { return [S.Rejected(r.client)]; }
      S.AddRequestLinked(State(), r);
      hide S.Linked;
      var id := AddRequest(r);
      if forwardOk { return [S.Forwarded(r.target, id, r.addr, r.cid)]; }
      RemoveRequest(id);
      out := [S.Replied(r, false)];
    }

    method HandleRequestResultsMsg(from: S.Id, id: Option<S.Id>, cid: string, success: bool,
                                   gone: bool, goneLater: bool)
      returns (out: seq<S.Out>)
      requires S.Linked(State()) && from in targets
      modifies this
      ensures (State(), out) == S.Handle(old(State()), S.Result(from, id, cid, success, gone, goneLater))
      ensures S.Linked(State())
    {
      S.HandleLinked(State(), S.Result(from, id, cid, success, gone, goneLater));
      S.ReceivedLinked(State(), from);
      hide S.Linked;
      out := [];
      var t := targets[from];
      var pending := t.pending - 1;
      targets := targets[from := t.(pending := pending, watched := t.watched && pending > 0)];
      if id.None? {
        RemoveTarget(from);
      } else if id.value in requests {
        if gone {
          RemoveRequest(id.value);
        } else if cid != requests[id.value].cid {
          RemoveTarget(from);
        } else {
          if !(success && goneLater) { out := [S.Replied(requests[id.value], success)]; }
          RemoveRequest(id.value);
        }
      }
    }

    /** Every registered target has a record to mark. */
    method MarkAlive(now: int)
      requires S.TargetsKept(State())
      modifies this`reconnect
      ensures reconnect == S.Marked(old(State()), now)
    {
      ghost var infos := reconnect;
      var todo := targets.Keys;
      while todo != {}
        invariant todo <= targets.Keys && reconnect.Keys == infos.Keys
        invariant forall c :: c in infos ==>
          reconnect[c] == if c in targets && c !in todo then infos[c].(lastAlive := now) else infos[c]
        decreases |todo|
      {
        var c :| c in todo;
        assert c in reconnect;
        reconnect := reconnect[c := reconnect[c].(lastAlive := now)];
        todo := todo - {c};
      }
    }

    method Prune(now: int)
      modifies this`reconnect
      ensures reconnect == S.Pruned(old(reconnect), now, interval)
    {
      ghost var infos := reconnect;
      var todo := reconnect.Keys;
      while todo != {}
        invariant todo <= reconnect.Keys <= infos.Keys
        invariant forall c :: c in infos ==> (c in reconnect <==> c in todo || now - infos[c].lastAlive <= 2 * interval)
        invariant forall c :: c in reconnect ==> reconnect[c] == infos[c]
        decreases |todo|
      {
        var c :| c in todo;
        if now - reconnect[c].lastAlive > 2 * interval { reconnect := reconnect - {c}; }
        todo := todo - {c};
      }
    }

    method SweepReconnectInfo(now: int)
      requires S.Linked(State()) && interval >= 0
      modifies this`reconnect, this`lastSweep
      ensures State() == S.Handle(old(State()), S.Sweep(now)).0 && S.Linked(State())
    {
      S.HandleLinked(State(), S.Sweep(now));
      hide S.Pruned;
      hide S.Marked;
      if lastSweep + interval > now { return; }
      lastSweep := now;
      MarkAlive(now);
      Prune(now);
    }
  }

  /** The server with some requests of target `c` already removed. */
  function Dropped(s: S.Server, c: S.Id, gone: set<S.Id>): S.Server
    requires c in s.targets
  {
    s.(requests := s.requests - gone,
       targets := s.targets[c := s.targets[c].(requests := s.targets[c].requests - gone)])
  }

  lemma DropNone(s: S.Server, c: S.Id)
    requires c in s.targets
    ensures Dropped(s, c, {}) == s
  {
    assert s.targets[c].requests - {} == s.targets[c].requests && s.requests - {} == s.requests;
    assert s.targets[c := s.targets[c]] == s.targets;
  }

  lemma DropOne(s: S.Server, c: S.Id, gone: set<S.Id>, id: S.Id)
    requires S.Linked(s) && c in s.targets && id in s.targets[c].requests && id !in gone
    ensures id in Dropped(s, c, gone).requests
    ensures S.RemoveRequest(Dropped(s, c, gone), id) == Dropped(s, c, gone + {id})
  {
    assert id in s.requests && s.requests[id].target == c;
    hide S.Linked;
    var t := s.targets[c];
    assert t.requests - gone - {id} == t.requests - (gone + {id});
    assert s.requests - gone - {id} == s.requests - (gone + {id});
  }

  lemma DropAll(s: S.Server, c: S.Id, gone: set<S.Id>)
    requires c in s.targets && gone <= s.targets[c].requests.Keys && Dropped(s, c, gone).targets[c].requests == map[]
    ensures Dropped(s, c, gone).(targets := Dropped(s, c, gone).targets - {c}) == S.RemoveTarget(s, c)
  {
    var t := s.targets[c];
    assert gone == t.requests.Keys by {
      assert forall id :: id in t.requests && id !in gone ==> id in t.requests - gone;
    }
    assert s.targets[c := t.(requests := map[])] - {c} == s.targets - {c};
  }

  lemma SlotNext(start: S.Id, k: nat)
    ensures S.Slot(S.Slot(start, k), 1) == S.Slot(start, k + 1)
  {
  }

  lemma RecordThere(s: S.Server, c: S.Id)
    requires S.Linked(s) && c in s.targets
    ensures c in s.reconnect
  {
  }
}
