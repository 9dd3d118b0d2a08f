/**
 The cache of expressions: name (in any case) and value text lead to the one
 entry that all envelopes with that text share.  The map holds entries weakly;
 an entry flushes itself when its last envelope goes.
 */
module ExprCache {
  import opened Values

  type Id = nat

  /** A shared entry and the number of envelopes that hold it. */
  datatype Entry<T> = Entry(name: string, value: string, tree: T, refs: nat)

  datatype State<T> = State(
    names: map<string, map<string, Id>>,   // folded name -> value text -> entry
    entries: map<Id, Entry<T>>,
    nextId: Id,
    hits: nat, misses: nat, checks: nat, removals: nat)

  type Names = map<string, map<string, Id>>

  /** What the map leads to, from a folded name. */
  function Look(names: Names, n: string, value: string): Option<Id> {
    if n in names && value in names[n] then Some(names[n][value]) else None
  }

  function Find(names: Names, name: string, value: string): Option<Id> {
    Look(names, Lower(name), value)
  }

  function With(names: Names, n: string, value: string, id: Id): Names {
    names[n := (if n in names then names[n] else map[])[value := id]]
  }

  /** `flush`: a name with a single value goes without a look at the value. */
  function Flushed(names: Names, n: string, value: string): Names {
    if n !in names then names
    else if |names[n]| == 1 then names - {n}
    else names[n := names[n] - {value}]
  }

  datatype Event<T> =
    | CacheTree(name: string, value: string, tree: T)
    | CheckHit(name: string, value: string)
    | CopyEnvelope(id: Id)
    | DropEnvelope(id: Id)

  predicate Possible<T>(s: State<T>, e: Event<T>) {
    match e
    case CopyEnvelope(id) => id in s.entries
    case DropEnvelope(id) => id in s.entries
    case _ => true
  }

  function Held<T>(s: State<T>, id: Id): State<T>
    requires id in s.entries
  {
    s.(entries := s.entries[id := s.entries[id].(refs := s.entries[id].refs + 1)])
  }

  /** An envelope event and the entry whose tree it answers with, if any. */
  function Handle<T>(s: State<T>, e: Event<T>): (State<T>, Option<Id>)
    requires Possible(s, e)
  {
    match e
    case CacheTree(name, value, tree) =>
      var hit := Find(s.names, name, value);
      if hit.Some? && hit.value in s.entries then (Held(s, hit.value).(hits := s.hits + 1), hit)
      else
        var id := s.nextId;
        (s.(names := With(s.names, Lower(name), value, id), entries := s.entries[id := Entry(name, value, tree, 1)],
            nextId := id + 1, misses := s.misses + 1), Some(id))
    case CheckHit(name, value) =>
      var hit := Find(s.names, name, value);
      if hit.Some? && hit.value in s.entries then (Held(s, hit.value).(hits := s.hits + 1), hit)
      else (s.(checks := s.checks + 1), None)
    case CopyEnvelope(id) => (Held(s, id), Some(id))
    case DropEnvelope(id) =>
      var x := s.entries[id];
      if x.refs > 1 then (s.(entries := s.entries[id := x.(refs := x.refs - 1)]), None)
      else
        (s.(names := Flushed(s.names, Lower(x.name), x.value), entries := s.entries - {id},
          removals := s.removals + 1), None)
  }

  // ---------- the map of maps ----------

  predicate NoEmptyNames(names: Names) {
    forall n :: n in names ==> names[n] != map[]
  }

  lemma {:induction false} LookWith(names: Names, n: string, value: string, id: Id, m: string, v: string)
    ensures Look(With(names, n, value, id), m, v) == if m == n && v == value then Some(id) else Look(names, m, v)
  {
  }

  lemma {:induction false} WithNames(names: Names, n: string, value: string, id: Id)
    requires NoEmptyNames(names)
    ensures NoEmptyNames(With(names, n, value, id))
  {
    var inner := (if n in names then names[n] else map[])[value := id];
    assert value in inner;
  }

  lemma {:induction false} SingleKey(m: map<string, Id>, a: string)
    requires |m| == 1 && a in m
    ensures m.Keys == {a}
  {
    assert |m.Keys| == 1;
    assert |m.Keys - {a}| == 0;
    assert m.Keys - {a} == {};
  }

  /** A flush takes out the one pair that it names, and no other. */
  lemma {:induction false} LookFlushed(names: Names, n: string, value: string, m: string, v: string)
    requires Look(names, n, value).Some?
    ensures Look(Flushed(names, n, value), m, v) == if m == n && v == value then None else Look(names, m, v)
  {
    if |names[n]| == 1 { SingleKey(names[n], value); }
  }

  lemma {:induction false} FlushedNames(names: Names, n: string, value: string)
    requires NoEmptyNames(names) && Look(names, n, value).Some?
    ensures NoEmptyNames(Flushed(names, n, value))
  {
    var m := names[n];
    if |m| != 1 {
      assert (m - {value}).Keys == m.Keys - {value};
      assert |(m - {value}).Keys| == |m.Keys| - 1 && |m| == |m.Keys| && |(m - {value})| == |(m - {value}).Keys|;
      assert m - {value} != map[];
    }
  }

  lemma {:induction false} CountWith<T>(m: map<Id, Entry<T>>, id: Id, x: Entry<T>)
    ensures |m[id := x]| == if id in m then |m| else |m| + 1
    ensures id in m ==> |m - {id}| == |m| - 1
  {
    assert m[id := x].Keys == m.Keys + {id} && (m - {id}).Keys == m.Keys - {id};
    assert |m[id := x]| == |m[id := x].Keys| && |m| == |m.Keys| && |m - {id}| == |(m - {id}).Keys|;
  }

  // ---------- coherence ----------

  /** Every live entry is found under its name and value. */
  predicate EntriesFound<T>(names: Names, entries: map<Id, Entry<T>>, nextId: Id) {
    forall id :: id in entries ==>
      id < nextId && entries[id].refs > 0 && Look(names, Lower(entries[id].name), entries[id].value) == Some(id)
  }

  /** Whatever is found is a live entry of that name and value. */
  ghost predicate FoundLive<T>(names: Names, entries: map<Id, Entry<T>>) {
    forall n, v :: Look(names, n, v).Some? ==>
      var id := Look(names, n, v).value;
      id in entries && Lower(entries[id].name) == n && entries[id].value == v
  }

  ghost predicate Coherent<T>(s: State<T>) {
    && EntriesFound(s.names, s.entries, s.nextId) && FoundLive(s.names, s.entries) && NoEmptyNames(s.names)
    && s.misses == s.removals + |s.entries|
  }

  /** There is at most one live entry for a name, in any case, and a value. */
  lemma {:induction false} OneEntry<T>(s: State<T>, a: Id, b: Id)
    requires Coherent(s) && a in s.entries && b in s.entries
    requires Lower(s.entries[a].name) == Lower(s.entries[b].name) && s.entries[a].value == s.entries[b].value
    ensures a == b
  {
    hide Lower;
  }

  /** Changing the number of envelopes of an entry, short of none. */
  lemma {:induction false} RecountCoherent<T>(s: State<T>, id: Id, refs: nat, hits: nat)
    requires Coherent(s) && id in s.entries && refs > 0
    ensures Coherent(s.(entries := s.entries[id := s.entries[id].(refs := refs)], hits := hits))
  {
    hide Lower;
    hide Look;
    CountWith(s.entries, id, s.entries[id].(refs := refs));
  }

  lemma {:induction false} AddFound<T>(names: Names, entries: map<Id, Entry<T>>, id: Id, x: Entry<T>)
    requires EntriesFound(names, entries, id) && FoundLive(names, entries) && x.refs > 0
    requires Look(names, Lower(x.name), x.value).None?
    ensures EntriesFound(With(names, Lower(x.name), x.value, id), entries[id := x], id + 1)
    ensures FoundLive(With(names, Lower(x.name), x.value, id), entries[id := x])
  {
    hide Lower;
    hide Look;
    hide With;
    var n := Lower(x.name);
    var more := With(names, n, x.value, id);
    forall m, v ensures Look(more, m, v) == if m == n && v == x.value then Some(id) else Look(names, m, v) {
      LookWith(names, n, x.value, id, m, v);
    }
    assert id !in entries;
  }

  lemma {:induction false} AddCoherent<T>(s: State<T>, name: string, value: string, tree: T)
    requires Coherent(s) && Find(s.names, name, value).None?
    ensures var id := s.nextId;
            Coherent(s.(names := With(s.names, Lower(name), value, id),
                        entries := s.entries[id := Entry(name, value, tree, 1)],
                        nextId := id + 1, misses := s.misses + 1))
  {
    var x := Entry(name, value, tree, 1);
    CountWith(s.entries, s.nextId, x);
    WithNames(s.names, Lower(name), value, s.nextId);
    assert s.nextId !in s.entries;
    AddFound(s.names, s.entries, s.nextId, x);
    hide Lower;
    hide With;
    hide EntriesFound;
    hide FoundLive;
    hide NoEmptyNames;
  }

  lemma {:induction false} FlushCoherent<T>(s: State<T>, id: Id)
    requires Coherent(s) && id in s.entries
    ensures var x := s.entries[id];
            Coherent(s.(names := Flushed(s.names, Lower(x.name), x.value), entries := s.entries - {id},
              removals := s.removals + 1))
  {
    hide Lower;
    hide Look;
    hide Flushed;
    var x := s.entries[id];
    var n := Lower(x.name);
    var names, entries := Flushed(s.names, n, x.value), s.entries - {id};
    CountWith(s.entries, id, x);
    FlushedNames(s.names, n, x.value);
    forall m, v ensures Look(names, m, v) == if m == n && v == x.value then None else Look(s.names, m, v) {
      LookFlushed(s.names, n, x.value, m, v);
    }
    forall k | k in entries ensures Look(names, Lower(entries[k].name), entries[k].value) == Some(k) {
      if Lower(entries[k].name) == n && entries[k].value == x.value { OneEntry(s, k, id); }
    }
    assert EntriesFound(names, entries, s.nextId);
    assert FoundLive(names, entries);
  }

  lemma {:induction false} MissCoherent<T>(s: State<T>)
    requires Coherent(s)
    ensures Coherent(s.(checks := s.checks + 1))
  {
    hide EntriesFound;
    hide FoundLive;
    hide NoEmptyNames;
  }

  /** Every event keeps the cache coherent. */
  lemma {:induction false} HandleCoherent<T>(s: State<T>, e: Event<T>)
    requires Coherent(s) && Possible(s, e)
    ensures Coherent(Handle(s, e).0)
  {
    hide Lower;
    hide Find;
    hide With;
    hide Flushed;
    hide Coherent;
    match e
    case CacheTree(name, value, tree) =>
      FindIsLive(s, name, value);
      var hit := Find(s.names, name, value);
      if hit.Some? {
        RecountCoherent(s, hit.value, s.entries[hit.value].refs + 1, s.hits + 1);
      } else {
        AddCoherent(s, name, value, tree);
      }
    case CheckHit(name, value) =>
      FindIsLive(s, name, value);
      var hit := Find(s.names, name, value);
      if hit.Some? {
        RecountCoherent(s, hit.value, s.entries[hit.value].refs + 1, s.hits + 1);
      } else {
        MissCoherent(s);
      }
    case CopyEnvelope(id) => RecountCoherent(s, id, s.entries[id].refs + 1, s.hits);
    case DropEnvelope(id) =>
      if s.entries[id].refs > 1 {
        RecountCoherent(s, id, s.entries[id].refs - 1, s.hits);
      } else {
        FlushCoherent(s, id);
      }
  }

  lemma {:induction false} FindIsLive<T>(s: State<T>, name: string, value: string)
    requires Coherent(s)
    ensures Find(s.names, name, value).Some? ==> Find(s.names, name, value).value in s.entries
  {
    hide Lower;
    hide Look;
  }

  /**
   Asking for a name and text that a live entry has answers with that entry, as
   it was first cached; the tree passed in is dropped.
   */
  lemma {:induction false} HitsShare<T>(s: State<T>, id: Id, name: string, tree: T)
    requires Coherent(s) && id in s.entries && Lower(name) == Lower(s.entries[id].name)
    ensures Handle(s, CacheTree(name, s.entries[id].value, tree)).1 == Some(id)
    ensures Handle(s, CheckHit(name, s.entries[id].value)).1 == Some(id)
    ensures Handle(s, CacheTree(name, s.entries[id].value, tree)).0.entries[id].tree == s.entries[id].tree
  {
    hide Lower;
    assert Find(s.names, name, s.entries[id].value) == Some(id);
  }

  /** While it lives, an entry keeps its name, text and tree. */
  lemma {:induction false} EntriesStay<T>(s: State<T>, e: Event<T>, id: Id)
    requires Coherent(s) && Possible(s, e) && id in s.entries && id in Handle(s, e).0.entries
    ensures Handle(s, e).0.entries[id].tree == s.entries[id].tree
    ensures Handle(s, e).0.entries[id].value == s.entries[id].value
  {
    hide Lower;
  }

  /** An entry goes exactly when its last envelope does. */
  lemma {:induction false} LivesWhileHeld<T>(s: State<T>, e: Event<T>, id: Id)
    requires Coherent(s) && Possible(s, e) && id in s.entries
    ensures id !in Handle(s, e).0.entries <==> e == DropEnvelope(id) && s.entries[id].refs == 1
  {
    hide Lower;
  }

  ghost predicate IsRun<T>(ss: seq<State<T>>, es: seq<Event<T>>) {
    && |ss| == |es| + 1
    && forall i :: 0 <= i < |es| ==> Possible(ss[i], es[i]) && ss[i + 1] == Handle(ss[i], es[i]).0
  }

  lemma {:induction false} AlwaysCoherent<T>(ss: seq<State<T>>, es: seq<Event<T>>, i: nat)
    requires IsRun(ss, es) && ss[0] == State(map[], map[], 0, 0, 0, 0, 0) && i < |ss|
    ensures Coherent(ss[i])
  {
    if i > 0 {
      AlwaysCoherent(ss, es, i - 1);
      HandleCoherent(ss[i - 1], es[i - 1]);
      hide Coherent;
      hide Handle;
    }
  }

  // ---------- envelopes ----------

  /** How many envelopes hold an entry. */
  function Envelopes<T>(s: State<T>, id: Id): nat {
    if id in s.entries then s.entries[id].refs else 0
  }

  /** An envelope that an event hands out for an entry, or takes back. */
  function Change<T>(s: State<T>, e: Event<T>, id: Id): int
    requires Possible(s, e)
  {
    if e.DropEnvelope? then (if e.id == id then -1 else 0)
    else if Handle(s, e).1 == Some(id) then 1
    else 0
  }

  /** Every event counts the envelopes it hands out and takes back, and every request once. */
  lemma {:induction false} EnvelopesCounted<T>(s: State<T>, e: Event<T>, id: Id)
    requires Coherent(s) && Possible(s, e)
    ensures Envelopes(Handle(s, e).0, id) == Envelopes(s, id) + Change(s, e, id)
    ensures var t := Handle(s, e).0;
      && t.hits + t.misses + t.checks == s.hits + s.misses + s.checks + (if e.CacheTree? || e.CheckHit? then 1 else 0)
      && (t.misses > s.misses ==> e.CacheTree?) && (t.checks > s.checks ==> e.CheckHit?)
      && (t.hits > s.hits ==> (e.CacheTree? || e.CheckHit?) && Find(s.names, e.name, e.value).Some?)
  {
    hide Lower;
    hide With;
    hide Flushed;
    assert s.nextId !in s.entries;
  }

  /** The envelopes handed out less those taken back, over the first `i` events. */
  ghost function Balance<T>(ss: seq<State<T>>, es: seq<Event<T>>, id: Id, i: nat): int
    requires IsRun(ss, es) && i < |ss|
  {
    if i == 0 then 0 else Balance(ss, es, id, i - 1) + Change(ss[i - 1], es[i - 1], id)
  }

  /** In every run an entry counts exactly the envelopes that are out, and lives exactly while there is one. */
  lemma {:induction false} EntriesCountEnvelopes<T>(ss: seq<State<T>>, es: seq<Event<T>>, id: Id, i: nat)
    requires IsRun(ss, es) && ss[0] == State(map[], map[], 0, 0, 0, 0, 0) && i < |ss|
    ensures Envelopes(ss[i], id) == Balance(ss, es, id, i)
    ensures id in ss[i].entries <==> Balance(ss, es, id, i) > 0
  {
    AlwaysCoherent(ss, es, i);
    if i > 0 {
      EntriesCountEnvelopes(ss, es, id, i - 1);
      AlwaysCoherent(ss, es, i - 1);
      EnvelopesCounted(ss[i - 1], es[i - 1], id);
      hide Handle;
      hide Change;
    }
  }

  // ---------- the cache as it runs ----------

  /** `ClassAdCache` with the entries that its weak references lead to. */
  class ClassAdCache<T> {
    var names: Names
    var entries: map<Id, Entry<T>>
    var nextId: Id
    var hits: nat
    var misses: nat
    var checks: nat
    var removals: nat

    ghost function Now(): State<T>
      reads this
    {
      State(names, entries, nextId, hits, misses, checks, removals)
    }

    constructor ()
      ensures Coherent(Now()) && Now() == State(map[], map[], 0, 0, 0, 0, 0)
    {
      names, entries, nextId := map[], map[], 0;
      hits, misses, checks, removals := 0, 0, 0, 0;
    }

    method LookUp(name: string, value: string) returns (id: Option<Id>)
      ensures id == Find(names, name, value)
    {
      var n := Lower(name);
      hide Lower;
      if n in names && value in names[n] { id := Some(names[n][value]); } else { id := None; }
    }

    method Enter(name: string, value: string, id: Id)
      modifies this`names
      ensures names == With(old(names), Lower(name), value, id)
    {
      var n := Lower(name);
      hide Lower;
      var inner: map<string, Id> := if n in names then names[n] else map[];
      inner := inner[value := id];
      names := names[n := inner];
    }

    /** The value is there whenever it is looked for. */
    method Flush(name: string, value: string)
      requires Find(names, name, value).Some?
      modifies this`names, this`removals
      ensures names == Flushed(old(names), Lower(name), value) && removals == old(removals) + 1
    {
      var n := Lower(name);
      hide Lower;
      if |names[n]| == 1 {
        names := names - {n};
      } else {
        assert value in names[n];
        names := names[n := names[n] - {value}];
      }
      removals := removals + 1;
    }

    method Share(id: Id)
      requires id in entries
      modifies this`entries
      ensures Now() == Held(old(Now()), id)
    {
      entries := entries[id := entries[id].(refs := entries[id].refs + 1)];
    }

    /** A hit is never an expired entry. */
    method CacheTree(name: string, value: string, tree: T) returns (id: Id)
      requires Coherent(Now())
      modifies this
      ensures Coherent(Now()) && (Now(), Some(id)) == Handle(old(Now()), Event.CacheTree(name, value, tree))
    {
      hide Coherent;
      hide Lower;
      hide Find;
      hide With;
      FindIsLive(Now(), name, value);
      HandleCoherent(Now(), Event.CacheTree(name, value, tree));
      var hit := LookUp(name, value);
      if hit.Some? {
        id := hit.value;
        hits := hits + 1;
        Share(id);
      } else {
        id := nextId;
        nextId := nextId + 1;
        Enter(name, value, id);
        entries := entries[id := Entry(name, value, tree, 1)];
        misses := misses + 1;
      }
    }

    method CheckHit(name: string, value: string) returns (id: Option<Id>)
      requires Coherent(Now())
      modifies this
      ensures Coherent(Now()) && (Now(), id) == Handle(old(Now()), Event.CheckHit(name, value))
    {
      hide Coherent;
      hide Lower;
      hide Find;
      FindIsLive(Now(), name, value);
      HandleCoherent(Now(), Event.CheckHit(name, value));
      id := LookUp(name, value);
      if id.Some? {
        hits := hits + 1;
        Share(id.value);
      } else {
        checks := checks + 1;
      }
    }

    /** Flushes the entry when this was its last envelope. */
    method Release(id: Id)
      requires Coherent(Now()) && id in entries
      modifies this
      ensures Coherent(Now()) && Now() == Handle(old(Now()), DropEnvelope(id)).0
    {
      EntryIsFound(Now(), id);
      hide Coherent;
      hide Lower;
      hide Find;
      hide Flushed;
      HandleCoherent(Now(), DropEnvelope(id));
      var x := entries[id];
      if x.refs > 1 {
        entries := entries[id := x.(refs := x.refs - 1)];
      } else {
        entries := entries - {id};
        Flush(x.name, x.value);
      }
    }
  }

  lemma {:induction false} EntryIsFound<T>(s: State<T>, id: Id)
    requires Coherent(s) && id in s.entries
    ensures Find(s.names, s.entries[id].name, s.entries[id].value) == Some(id)
  {
    hide Lower;
    hide Look;
  }
}
