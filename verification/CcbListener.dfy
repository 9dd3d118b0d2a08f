/**
 A daemon keeping itself registered with a broker: connect, register, and after
 any failure try again later.  It also makes the reversed connections that the
 broker asks for.
 */
module CcbListener {

  datatype Listener = Listener(
    sock: bool,
    connecting: bool,          // waiting for the connect callback
    registering: bool,         // waiting for the registration reply
    registered: bool,
    timer: bool,               // reconnect timer armed
    heartbeat: bool,           // heartbeat timer armed
    callback: bool,            // a connect callback is outstanding
    reversing: nat,            // reversed connections under way
    refs: int,
    owners: nat)

  // ---------- the steps ----------

  function Disconnected(s: Listener): Listener {
    s.(sock := false, connecting := false, registering := false, registered := false, heartbeat := false,
       timer := true, refs := if s.connecting then s.refs - 1 else s.refs)
  }

  /** `WriteMsgToCCB` */
  function Written(s: Listener, ok: bool): Listener {
    if !s.sock || s.connecting || ok then s else Disconnected(s)
  }

  /** `RegisterWithCCBServer` without blocking; `ok` is whether the socket was made or the message written. */
  function Registering(s: Listener, ok: bool): Listener {
    if s.connecting || s.timer || s.registering || s.registered then s
    else if !ok then Disconnected(s)
    else if s.sock then s.(registering := true)
    else s.(sock := true, connecting := true, callback := true, refs := s.refs + 1)
  }

  datatype Message = Unreadable | Reply | Request(started: bool, reportOk: bool) | Other

  datatype Event =
    | Register(ok: bool)
    | Connected(success: bool, beats: bool, ok: bool)
    | ReconnectTime(ok: bool)
    | Receive(m: Message, beats: bool)
    | Reversed(reportOk: bool)
    | HeartbeatTime(dead: bool, ok: bool)
    | Reconfigure(beats: bool)

  /** A callback, timer or socket event comes only while it is registered. */
  predicate Possible(s: Listener, e: Event) {
    match e
    case Register(_) => true
    case Connected(_, _, _) => s.callback
    case ReconnectTime(_) => s.timer
    case Receive(_, _) => s.sock && !s.connecting
    case Reversed(_) => s.reversing > 0
    case HeartbeatTime(_, _) => s.heartbeat
    case Reconfigure(_) => true
  }

  function Handle(s: Listener, e: Event): Listener
    requires Possible(s, e)
  {
    match e
    case Register(ok) => Registering(s, ok)
    case Connected(success, beats, ok) =>
      var s1 := s.(connecting := false, callback := false);
      var s2 := if success then Registering(s1.(heartbeat := beats), ok) else Disconnected(s1.(sock := false));
      s2.(refs := s2.refs - 1)
    case ReconnectTime(ok) => Registering(s.(timer := false), ok)
    case Receive(m, beats) =>
      if m.Unreadable? then Disconnected(s)
      else
        var s1 := s.(heartbeat := beats);
        match m {
          case Reply => s1.(registering := false, registered := true)
          case Request(started, reportOk) =>
            if started then s1.(reversing := s1.reversing + 1, refs := s1.refs + 1) else Written(s1, reportOk)
          case _ => s1
        }
    case Reversed(reportOk) =>
      var s1 := Written(s, reportOk);
      s1.(reversing := s1.reversing - 1, refs := s1.refs - 1)
    case HeartbeatTime(dead, ok) => if dead then Disconnected(s) else Written(s, ok)
    case Reconfigure(beats) => s.(heartbeat := beats && s.sock && !s.connecting)
  }

  // ---------- what stays true ----------

  function Ones(a: bool): nat { if a then 1 else 0 }

  /** Exactly one thing is under way: connecting, registering, being registered or waiting to retry. */
  predicate OneUnderWay(s: Listener) {
    Ones(s.connecting) + Ones(s.registering) + Ones(s.registered) + Ones(s.timer) == 1
  }

  /** Every reference is accounted for, the one of a connect while its callback is outstanding. */
  predicate Counted(s: Listener) {
    s.refs == s.owners + Ones(s.callback) + s.reversing
  }

  predicate Sound(s: Listener) {
    && OneUnderWay(s) && Counted(s)
    && s.callback == s.connecting && s.timer == !s.sock && (s.heartbeat ==> s.sock && !s.connecting)
  }

  /** Before the first call. */
  predicate Idle(s: Listener) {
    && !s.sock && !s.connecting && !s.registering && !s.registered && !s.timer && !s.heartbeat && !s.callback
    && s.reversing == 0 && s.refs == s.owners
  }

  /** No handler hangs up while a connect is outstanding, so its reference is released once. */
  lemma HandleSound(s: Listener, e: Event)
    requires Sound(s) && Possible(s, e)
    ensures Sound(Handle(s, e))
    ensures s.callback && !Handle(s, e).callback ==> e.Connected?
  {
  }

  /** A listener that has hung up and waits to try again. */
  predicate Retrying(s: Listener) {
    s.timer && !s.sock && !s.connecting && !s.registering && !s.registered && !s.heartbeat
  }

  /** Hanging up leaves only the retry, and lets go of a connect that is outstanding. */
  lemma HangingUp(s: Listener)
    ensures Retrying(Disconnected(s))
    ensures Disconnected(s).refs == s.refs - (if s.connecting then 1 else 0)
    ensures Disconnected(s).callback == s.callback && Disconnected(s).reversing == s.reversing
  {
  }

  /** The first call connects, or waits to try again. */
  lemma FirstCall(s: Listener, ok: bool)
    requires Idle(s)
    ensures var t := Handle(s, Register(ok)); if ok then t.connecting && t.sock && t.callback else Retrying(t)
  {
  }

  /** What each event leads to, beyond what stays true. */
  lemma EventsLead(s: Listener, ok: bool, beats: bool)
    requires Sound(s)
    ensures Handle(s, Register(ok)) == s
    ensures s.timer ==> var t := Handle(s, ReconnectTime(ok)); if ok then t.connecting else Retrying(t)
    ensures s.callback ==> Retrying(Handle(s, Connected(false, beats, ok)))
    ensures s.callback ==> var t := Handle(s, Connected(true, beats, ok));
      if ok then t.registering && t.heartbeat == beats else Retrying(t)
    ensures s.sock && !s.connecting ==>
      && Retrying(Handle(s, Receive(Unreadable, beats)))
      && Handle(s, Receive(Reply, beats)).registered && Handle(s, Receive(Reply, beats)).heartbeat == beats
      && Handle(s, Receive(Other, beats)) == s.(heartbeat := beats)
      && Handle(s, Receive(Request(true, ok), beats)).reversing == s.reversing + 1
      && Handle(s, Receive(Request(false, true), beats)) == s.(heartbeat := beats)
      && Retrying(Handle(s, Receive(Request(false, false), beats)))
    ensures s.reversing > 0 ==> var t := Handle(s, Reversed(ok));
      t.reversing == s.reversing - 1 && (!ok && s.sock && !s.connecting ==> Retrying(t)) && (ok ==> t.sock == s.sock)
    ensures s.heartbeat ==>
      && Retrying(Handle(s, HeartbeatTime(true, ok)))
      && Retrying(Handle(s, HeartbeatTime(false, false))) && Handle(s, HeartbeatTime(false, true)) == s
    ensures Handle(s, Reconfigure(beats)).heartbeat ==> beats
    ensures s.sock && !s.connecting && beats ==> Handle(s, Reconfigure(beats)).heartbeat
  {
  }

  predicate IsRun(ss: seq<Listener>, es: seq<Event>) {
    && |ss| == |es| + 1
    && forall i :: 0 <= i < |es| ==> Possible(ss[i], es[i]) && ss[i + 1] == Handle(ss[i], es[i])
  }

  /** After the first call the listener never wedges. */
  lemma {:induction false} NeverWedges(start: Listener, ok: bool, ss: seq<Listener>, es: seq<Event>, i: nat)
    requires Idle(start) && IsRun(ss, es) && ss[0] == Registering(start, ok) && i < |ss|
    ensures Sound(ss[i])
  {
    if i > 0 {
      NeverWedges(start, ok, ss, es, i - 1);
      HandleSound(ss[i - 1], es[i - 1]);
      hide Handle;
      hide Sound;
    }
  }

  /** What has to go well for the listener to be registered. */
  function WayToRegister(s: Listener): seq<Event> {
    if s.registered then []
    else if s.registering then [Receive(Reply, true)]
    else if s.connecting then [Connected(true, true, true), Receive(Reply, true)]
    else [ReconnectTime(true), Connected(true, true, true), Receive(Reply, true)]
  }

  /** From every sound state a run of possible events leads to being registered. */
  lemma CanRegister(s: Listener) returns (ss: seq<Listener>)
    requires Sound(s)
    ensures IsRun(ss, WayToRegister(s)) && ss[0] == s && ss[|ss| - 1].registered
  {
    ss := [s];
    var es := WayToRegister(s);
    if s.timer {
      var s1 := Handle(s, es[0]);
      var s2 := Handle(s1, es[1]);
      ss := [s, s1, s2, Handle(s2, es[2])];
    } else if s.connecting {
      var s1 := Handle(s, es[0]);
      ss := [s, s1, Handle(s1, es[1])];
    } else if s.registering {
      ss := [s, Handle(s, es[0])];
    }
  }

  // ---------- the listener as it runs ----------

  class CCBListener {
    var sock: bool
    var connecting: bool
    var registering: bool
    var registered: bool
    var timer: bool
    var heartbeat: bool
    var callback: bool
    var reversing: nat
    var refs: int
    var owners: nat

    function State(): Listener
      reads this
    {
      Listener(sock, connecting, registering, registered, timer, heartbeat, callback, reversing, refs, owners)
    }

    constructor ()
      ensures Idle(State()) && owners == 1
    {
      sock, connecting, registering, registered, timer := false, false, false, false, false;
      heartbeat, callback, reversing, refs, owners := false, false, 0, 1, 1;
    }

    method HangUp()
      modifies this
      ensures State() == Disconnected(old(State()))
      ensures old(Sound(State())) && !old(connecting) ==> Sound(State())
    {
      sock := false;
      if connecting {
        connecting := false;
        refs := refs - 1;
      }
      registering := false;
      registered := false;
      heartbeat := false;
      timer := true;
    }

    method WriteMsgToCCB(ok: bool) returns (sent: bool)
      modifies this
      ensures State() == Written(old(State()), ok) && sent == (old(sock) && !old(connecting) && ok)
      ensures old(Sound(State())) ==> Sound(State())
    {
      if !sock || connecting { return false; }
      if !ok { HangUp(); }
      sent := ok;
    }

    /** The first call starts the machine; a later one finds something under way. */
    method RegisterWithCCBServer(ok: bool)
      modifies this
      ensures State() == Registering(old(State()), ok)
      ensures old(Idle(State()) || Sound(State())) ==> Sound(State())
    {
      if connecting || timer || registering || registered { return; }
      if sock {
        var sent := WriteMsgToCCB(ok);
        if sent { registering := true; }
      } else if ok {
        sock := true;
        connecting := true;
        callback := true;
        refs := refs + 1;
      } else {
        HangUp();
      }
    }

    method CCBConnectCallback(success: bool, beats: bool, ok: bool)
      requires Sound(State()) && callback
      modifies this
      ensures State() == Handle(old(State()), Connected(success, beats, ok)) && Sound(State())
    {
      HandleSound(State(), Connected(success, beats, ok));
      connecting := false;
      callback := false;
      assert sock;
      if success {
        heartbeat := beats;
        RegisterWithCCBServer(ok);
      } else {
        sock := false;
        HangUp();
      }
      refs := refs - 1;
    }

    method OnReconnectTime(ok: bool)
      requires Sound(State()) && timer
      modifies this
      ensures State() == Handle(old(State()), ReconnectTime(ok)) && Sound(State())
    {
      HandleSound(State(), ReconnectTime(ok));
      timer := false;
      RegisterWithCCBServer(ok);
    }

    method ReadMsgFromCCB(m: Message, beats: bool)
      requires Sound(State()) && sock && !connecting
      modifies this
      ensures State() == Handle(old(State()), Receive(m, beats)) && Sound(State())
    {
      HandleSound(State(), Receive(m, beats));
      if m.Unreadable? {
        HangUp();
        return;
      }
      heartbeat := beats;
      match m
      case Reply =>
        registering := false;
        registered := true;
      case Request(started, reportOk) =>
        if started {
          reversing := reversing + 1;
          refs := refs + 1;
        } else {
          var sent := WriteMsgToCCB(reportOk);
        }
      case _ =>
    }

    method ReverseConnected(reportOk: bool)
      requires Sound(State()) && reversing > 0
      modifies this
      ensures State() == Handle(old(State()), Reversed(reportOk)) && Sound(State())
    {
      HandleSound(State(), Reversed(reportOk));
      var sent := WriteMsgToCCB(reportOk);
      reversing := reversing - 1;
      refs := refs - 1;
    }

    method OnHeartbeatTime(dead: bool, ok: bool)
      requires Sound(State()) && heartbeat
      modifies this
      ensures State() == Handle(old(State()), HeartbeatTime(dead, ok)) && Sound(State())
    {
      HandleSound(State(), HeartbeatTime(dead, ok));
      if dead { HangUp(); } else { var sent := WriteMsgToCCB(ok); }
    }
  }
}
