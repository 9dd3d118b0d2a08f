/**
 A client waiting for a reversed connection without blocking: it asks one broker
 after another until a connection arrives, the deadline expires, it is
 cancelled, or no broker is left.
 */
module CcbClient {
  /** A broker contact, which may fail to split into an address and an identifier. */
  datatype Contact = WellFormed | Malformed

  /** How the attempt ended. */
  datatype Ending = Attached | GaveUp

  datatype Client = Client(
    contacts: seq<Contact>,    // brokers not tried yet
    hasTarget: bool,           // the socket still waits for its connection
    asking: bool,              // the callback of a request is outstanding
    timer: bool,
    listed: bool,              // in the table of waiting clients
    refs: int,
    callers: nat,              // references held outside
    endings: seq<Ending>,      // each time the socket left the connecting state
    asserted: bool)            // an assertion failed

  // ---------- the steps ----------

  /** `RegisterReverseConnectCallback`; the table must not hold the client yet. */
  function Listed(s: Client): Client {
    if s.listed then s.(timer := true, asserted := true)
    else s.(timer := true, listed := true, refs := s.refs + 1)
  }

  /** `UnregisterReverseConnectCallback`; the table must hold the client. */
  function Unlisted(s: Client): Client {
    if s.listed then s.(timer := false, listed := false, refs := s.refs - 1)
    else s.(timer := false, asserted := true)
  }

  /** `ReverseConnectCallback`; the socket must still be waiting. */
  function Finished(s: Client, end: Ending): Client {
    if !s.hasTarget then s.(asserted := true)
    else
      var left := s.(hasTarget := false, endings := s.endings + [end]);
      Unlisted(if s.asking then left.(asking := false, refs := s.refs - 1) else left)
  }

  /** `try_next_ccb`; a malformed contact makes it start over while it is listed. */
  function TriedNext(s: Client): Client
    decreases |s.contacts|
  {
    var s1 := Listed(s);
    if s1.asserted then s1
    else if s1.contacts == [] then Finished(s1, GaveUp)
    else
      var s2 := s1.(contacts := s1.contacts[1..]);
      if s1.contacts[0].Malformed? then TriedNext(s2) else s2.(asking := true, refs := s2.refs + 1)
  }

  datatype Event = Results(success: bool) | Arrives | Deadline | Cancel | Grab | LetGo

  predicate Possible(s: Client, e: Event) {
    match e
    case Results(_) => s.asking
    case Arrives => s.listed
    case Deadline => s.timer
    case Cancel => true
    case Grab => true
    case LetGo => s.callers > 0
  }

  /** One callback, timer, command or call of an owner. */
  function Handle(s: Client, e: Event): Client
    requires Possible(s, e)
  {
    match e
    case Results(success) =>
      var s1 := s.(asking := false);
      var s2 := if success then s1 else TriedNext(Unlisted(s1));
      s2.(refs := s2.refs - 1)
    case Arrives => Finished(s, Attached)
    case Deadline => var s1 := s.(timer := false); if s1.hasTarget then Finished(s1, GaveUp) else s1
    case Cancel => if s.hasTarget then Finished(s, GaveUp) else s
    case Grab => s.(callers := s.callers + 1, refs := s.refs + 1)
    case LetGo => s.(callers := s.callers - 1, refs := s.refs - 1)
  }

  // ---------- what stays true ----------

  /** The reference count is the table entry, the outstanding callback and the callers. */
  predicate Counted(s: Client) {
    s.refs == (if s.listed then 1 else 0) + (if s.asking then 1 else 0) + s.callers
  }

  /** Waiting: listed and timed; or done, once, with nothing left over. */
  predicate Sound(s: Client) {
    && !s.asserted && Counted(s)
    && s.listed == s.hasTarget && s.timer == s.hasTarget && (s.asking ==> s.hasTarget)
    && |s.endings| == (if s.hasTarget then 0 else 1)
  }

  /** About to try a broker: the socket waits, and the client is neither listed nor asking. */
  predicate Ready(s: Client) {
    && !s.asserted && s.hasTarget && !s.listed && !s.asking && !s.timer && s.endings == []
  }

  predicate AllWellFormed(s: Client) {
    forall i :: 0 <= i < |s.contacts| ==> s.contacts[i].WellFormed?
  }

  /** The insertion into the table fails exactly when the next contact is malformed. */
  lemma NextAsserts(s: Client)
    requires Ready(s)
    ensures TriedNext(s).asserted <==> s.contacts != [] && s.contacts[0].Malformed?
  {
    if s.contacts != [] && s.contacts[0].Malformed? {
      var s2 := Listed(s).(contacts := s.contacts[1..]);
      assert TriedNext(s) == TriedNext(s2) && Listed(s2).asserted;
    }
  }

  /** Trying the next broker consumes one contact and asks, or gives up when there is none. */
  lemma NextSound(s: Client, extra: int)
    requires Ready(s) && AllWellFormed(s) && s.refs == s.callers + extra && 0 <= extra
    ensures var t := TriedNext(s);
            && Sound(t.(refs := t.refs - extra)) && AllWellFormed(t)
            && t.hasTarget == (s.contacts != []) && t.asking == (s.contacts != [])
            && t.contacts == (if s.contacts == [] then [] else s.contacts[1..])
            && t.endings == (if s.contacts == [] then [GaveUp] else [])
    ensures TriedNext(s).callers == s.callers
  {
  }

  lemma FinishSound(s: Client, end: Ending)
    requires Counted(s) && !s.asserted && s.hasTarget && s.listed && s.endings == []
    ensures Sound(Finished(s, end)) && Finished(s, end).endings == [end] && Finished(s, end).contacts == s.contacts
  {
  }

  /** No step of a client whose contacts are well formed trips an assertion or loses count. */
  lemma HandleSound(s: Client, e: Event)
    requires Sound(s) && AllWellFormed(s) && Possible(s, e)
    ensures Sound(Handle(s, e)) && AllWellFormed(Handle(s, e))
    ensures s.endings <= Handle(s, e).endings
  {
    match e
    case Results(success) =>
      if !success { NextSound(Unlisted(s.(asking := false)), 1); }
    case Arrives => FinishSound(s, Attached);
    case Deadline => FinishSound(s.(timer := false), GaveUp);
    case Cancel => if s.hasTarget { FinishSound(s, GaveUp); }
    case _ =>
  }

  /** Entering the table twice, leaving it twice and ending twice are what the assertions are there for. */
  lemma MisuseAsserts(s: Client, end: Ending)
    requires !s.asserted
    ensures Listed(s).asserted == s.listed && Listed(s).timer
    ensures Unlisted(s).asserted == !s.listed && !Unlisted(s).timer
    ensures Finished(s, end).asserted == (!s.hasTarget || !s.listed)
    ensures s.timer && !s.hasTarget ==> Handle(s, Deadline) == s.(timer := false)
  {
  }

  /** How each event ends the attempt, or leaves the client waiting. */
  lemma EventsEnd(s: Client)
    requires Sound(s) && AllWellFormed(s)
    ensures s.listed ==> Handle(s, Arrives).endings == [Attached]
    ensures s.timer ==> Handle(s, Deadline).endings == [GaveUp]
    ensures s.hasTarget ==> Handle(s, Cancel).endings == [GaveUp]
    ensures !s.hasTarget ==> Handle(s, Cancel) == s
    ensures s.asking ==> var t := Handle(s, Results(true));
      t.hasTarget && t.listed && t.timer && !t.asking && t.contacts == s.contacts && t.endings == []
    ensures s.asking ==> var t := Handle(s, Results(false));
      if s.contacts == [] then t.endings == [GaveUp]
      else t.hasTarget && t.asking && t.contacts == s.contacts[1..] && t.endings == []
    ensures Handle(s, Grab).callers == s.callers + 1
    ensures s.callers > 0 ==> Handle(s, LetGo).callers == s.callers - 1
  {
    if s.asking { NextSound(Unlisted(s.(asking := false)), 1); }
    hide TriedNext;
  }

  predicate IsRun(ss: seq<Client>, es: seq<Event>) {
    && |ss| == |es| + 1
    && forall i :: 0 <= i < |es| ==> Possible(ss[i], es[i]) && ss[i + 1] == Handle(ss[i], es[i])
  }

  lemma {:induction false} RunSound(ss: seq<Client>, es: seq<Event>, i: nat)
    requires IsRun(ss, es) && Sound(ss[0]) && AllWellFormed(ss[0]) && i < |ss|
    ensures Sound(ss[i]) && AllWellFormed(ss[i])
  {
    hide Handle;
    hide Sound;
    hide AllWellFormed;
    if i > 0 {
      RunSound(ss, es, i - 1);
      HandleSound(ss[i - 1], es[i - 1]);
    }
  }

  /**
   In every run after the first broker was tried the socket leaves the
   connecting state at most once; until it does the client is listed with its
   deadline armed, and from then on nothing of the attempt is left but the
   callers' references.
   */
  lemma {:induction false} CompletesOnce(start: Client, ss: seq<Client>, es: seq<Event>, i: nat)
    requires Ready(start) && start.refs == start.callers && AllWellFormed(start)
    requires IsRun(ss, es) && ss[0] == TriedNext(start) && i < |ss|
    ensures !ss[i].asserted && |ss[i].endings| <= 1
    ensures ss[i].endings == [] ==> ss[i].hasTarget && ss[i].listed && ss[i].timer
    ensures ss[i].endings != [] ==> !ss[i].listed && !ss[i].timer && !ss[i].asking && ss[i].refs == ss[i].callers
  {
    NextSound(start, 0);
    assert ss[0].(refs := ss[0].refs - 0) == ss[0];
    RunSound(ss, es, i);
  }

  /** The client after `n` brokers in a row have failed. */
  function Failing(s: Client, n: nat): Client {
    if n == 0 then s
    else
      var t := Failing(s, n - 1);
      if t.asking then Handle(t, Results(false)) else t
  }

  /** Failures use up the contacts one by one, and only then does the client give up. */
  lemma {:induction false} FailuresExhaust(s: Client, n: nat)
    requires Sound(s) && AllWellFormed(s) && s.asking
    ensures Sound(Failing(s, n)) && AllWellFormed(Failing(s, n))
    ensures n <= |s.contacts| ==> Failing(s, n).asking && Failing(s, n).contacts == s.contacts[n..]
    ensures n > |s.contacts| ==> Failing(s, n).endings == [GaveUp]
  {
    if n > 0 {
      FailuresExhaust(s, n - 1);
      var t := Failing(s, n - 1);
      if t.asking {
        HandleSound(t, Results(false));
        NextSound(Unlisted(t.(asking := false)), 1);
      }
    }
  }

  // ---------- the client as it runs ----------

  class CCBClient {
    var contacts: seq<Contact>
    var hasTarget: bool
    var asking: bool
    var timer: bool
    var listed: bool
    var refs: int
    var callers: nat
    var endings: seq<Ending>

    function State(): Client
      reads this
    {
      Client(contacts, hasTarget, asking, timer, listed, refs, callers, endings, false)
    }

    constructor (brokers: seq<Contact>)
      ensures Ready(State()) && contacts == brokers && refs == callers == 1
    {
      contacts, hasTarget, asking, timer, listed := brokers, true, false, false, false;
      refs, callers, endings := 1, 1, [];
    }

    method RegisterReverseConnectCallback()
      requires !listed
      modifies this
      ensures State() == Listed(old(State()))
    {
      timer := true;
      listed := true;
      refs := refs + 1;
    }

    method UnregisterReverseConnectCallback()
      requires listed
      modifies this
      ensures State() == Unlisted(old(State()))
    {
      timer := false;
      listed := false;
      refs := refs - 1;
    }

    method ReverseConnectCallback(end: Ending)
      requires hasTarget && listed
      modifies this
      ensures State() == Finished(old(State()), end)
      ensures old(Counted(State()) && endings == []) ==> Sound(State()) && endings == [end]
    {
      endings := endings + [end];
      hasTarget := false;
      if asking {
        asking := false;
        refs := refs - 1;
      }
      UnregisterReverseConnectCallback();
    }

    /** With a well-formed contact next, the insertion into the table cannot fail. */
    method TryNextCcb() returns (started: bool)
      requires Ready(State()) && (contacts != [] ==> contacts[0].WellFormed?)
      modifies this
      ensures State() == TriedNext(old(State())) && started == (old(contacts) != [])
      ensures old(refs == callers) ==> Sound(State())
    {
      RegisterReverseConnectCallback();
      started := contacts != [];
      if started {
        contacts := contacts[1..];
        refs := refs + 1;
        asking := true;
      } else {
        ReverseConnectCallback(GaveUp);
      }
    }

    method CCBResultsCallback(success: bool)
      requires Sound(State()) && AllWellFormed(State()) && asking
      modifies this
      ensures State() == Handle(old(State()), Results(success)) && Sound(State()) && AllWellFormed(State())
    {
      HandleSound(State(), Results(success));
      asking := false;
      if !success {
        UnregisterReverseConnectCallback();
        var started := TryNextCcb();
      }
      refs := refs - 1;
    }

    method DeadlineExpired()
      requires Sound(State()) && AllWellFormed(State()) && timer
      modifies this
      ensures State() == Handle(old(State()), Deadline) && Sound(State()) && AllWellFormed(State())
    {
      HandleSound(State(), Deadline);
      timer := false;
      if hasTarget { ReverseConnectCallback(GaveUp); }
    }

    method ReverseConnectArrives()
      requires Sound(State()) && AllWellFormed(State()) && listed
      modifies this
      ensures State() == Handle(old(State()), Arrives) && Sound(State()) && AllWellFormed(State())
    {
      HandleSound(State(), Arrives);
      ReverseConnectCallback(Attached);
    }
  }
}
