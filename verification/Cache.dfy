/**
 A cached collection: some ads in memory, the others in the storage file.  The
 two levels together behave as one map, whatever ads are evicted.
 */
module Cache {
  import opened Values
  import opened Storage
  import opened Transactions

  /** How an ad is written as a line of the storage file and read back. */
  datatype Codec = Codec(text: (string, Ad) -> string, keyOf: KeyOf, adOf: string -> Ad)

  /** Lines are live, without newline, and parse to the key and the ad they were written for. */
  ghost predicate Sound(codec: Codec) {
    forall key, ad ::
      var line := codec.text(key, ad);
      IsLine(line) && IsLive(line) && codec.keyOf(line) == key && codec.adOf(line) == ad
  }

  lemma SetAgain(m: map<string, string>, key: string, line: string)
    ensures (m - {key})[key := line] == m[key := line]
  {
  }

  /** `IndexFile`: the bytes of the file and the offsets of its live lines. */
  class IndexFile {
    const k: KeyOf
    var bytes: string
    var index: map<string, nat>
    ghost var lines: seq<string>

    ghost predicate Valid()
      reads this
    {
      bytes == Join(lines) && AllLines(lines) && OneEach(k, lines) && index == Offsets(k, lines)
    }

    /** The live line of each key. */
    ghost function Contents(): map<string, string>
      reads this
    {
      Held(k, lines)
    }

    constructor (keyOf: KeyOf)
      ensures Valid() && k == keyOf && Contents() == map[]
    {
      k, bytes, index, lines := keyOf, "", map[], [];
    }

    /** Reads character by character up to a newline or the end. */
    method ReadLine(at: nat) returns (line: string)
      requires at <= |bytes|
      ensures line == LineAt(bytes, at)
    {
      line := "";
      var i := at;
      while i < |bytes| && bytes[i] != '\n'
        invariant at <= i <= |bytes| && LineAt(bytes, at) == line + LineAt(bytes, i)
        decreases |bytes| - i
      {
        assert LineAt(bytes, i) == [bytes[i]] + LineAt(bytes, i + 1);
        assert line + ([bytes[i]] + LineAt(bytes, i + 1)) == line + [bytes[i]] + LineAt(bytes, i + 1);
        line := line + [bytes[i]];
        i := i + 1;
      }
      assert LineAt(bytes, i) == "";
      assert line + "" == line;
    }

    method GetClassadFromFile(key: string) returns (line: string)
      requires Valid() && key in index
      ensures key in Contents() && line == Contents()[key]
    {
      ghost var i := IndexMeans(k, lines, key);
      ReadsLine(lines, i);
      line := ReadLine(index[key]);
      assert line == lines[i] && line[0] != '*';
    }

    /** Writes the line with a star for its first character over the old one. */
    method DeleteFromStorageFile(key: string) returns (found: bool)
      requires Valid()
      modifies this
      ensures Valid() && Contents() == old(Contents()) - {key} && found == (key in old(Contents()))
      ensures |bytes| == old(|bytes|)
    {
      SameKeys(k, lines);
      found := key in index;
      if found {
        var at := index[key];
        ghost var i := IndexMeans(k, lines, key);
        ReadsLine(lines, i);
        var line := ReadLine(at);
        StarIndex(k, lines, i);
        StarBytes(lines, i);
        StarLength(lines, i);
        bytes := bytes[..at] + (Starred(line) + "\n") + bytes[at + |line| + 1..];
        index := index - {key};
        lines := lines[i := Starred(line)];
      }
    }

    method WriteBack(key: string, line: string)
      requires Valid() && IsLine(line) && IsLive(line) && k(line) == key
      modifies this
      ensures Valid() && Contents() == old(Contents())[key := line]
    {
      var found := DeleteFromStorageFile(key);
      AppendIndex(k, lines, line);
      JoinLast(lines, line);
      hide *;
      assert bytes + line + "\n" == bytes + (line + "\n");
      index := index[key := |bytes|];
      bytes := bytes + (line + "\n");
      lines := lines + [line];
      SetAgain(old(Contents()), key, line);
    }

    /** Rebuilds the index from the bytes. */
    method Rescan() returns (rebuilt: map<string, nat>)
      requires Valid()
      ensures rebuilt == index
    {
      ScanRebuilds(k, lines);
      rebuilt := map[];
      var at := 0;
      hide *;
      while true
        invariant at <= |bytes| && Scan(k, bytes, at, rebuilt) == index
        decreases |bytes| - at
      {
        ScanStep(k, bytes, at, rebuilt);
        var line := ReadLine(at);
        if line == "" { break; }
        rebuilt := Entry(k, rebuilt, line, at);
        at := Beyond(bytes, at);
      }
    }

    /** The loop of `TruncateStorageFile`: the live lines in the order of `keys`, with their new offsets. */
    method CopyLive(keys: seq<string>) returns (copy: string, offsets: map<string, nat>)
      requires Valid() && Lists(keys, Contents())
      ensures copy == Join(Lines(keys, Contents())) && offsets == Offsets(k, Lines(keys, Contents()))
    {
      ghost var all := Lines(keys, Contents());
      SameKeys(k, lines);
      copy, offsets := "", map[];
      var i := 0;
      assert all[..0] == [];
      assert Join([]) == "" && Offsets(k, []) == map[];
      hide Join;
      hide Offsets;
      hide Held;
      hide OneEach;
      hide AllLines;
      hide Lines;
      while i < |keys|
        invariant i <= |keys| && copy == Join(all[..i]) && offsets == Offsets(k, all[..i])
        decreases |keys| - i
      {
        assert keys[i] in Contents() && keys[i] in index;
        var line := GetClassadFromFile(keys[i]);
        LineOfKey(k, lines, keys[i]);
        assert line == all[i];
        OffsetsNext(k, all, i);
        offsets := offsets[keys[i] := |copy|];
        copy := copy + line + "\n";
        i := i + 1;
      }
      assert all[..i] == all;
    }

    /** Replaces the file by one with the live lines only. */
    method TruncateStorageFile(keys: seq<string>)
      requires Valid() && Lists(keys, Contents())
      modifies this
      ensures Valid() && Contents() == old(Contents()) && bytes == Join(Lines(keys, old(Contents())))
    {
      CompactHolds(k, lines, keys);
      hide Held;
      hide Offsets;
      hide Join;
      var copy, offsets := CopyLive(keys);
      bytes, index, lines := copy, offsets, Lines(keys, Contents());
    }
  }

  // ---------- the two levels as values ----------

  /** Ads in memory, keys marked dirty, ads in storage, and the counter of ads in memory. */
  datatype Levels = Levels(memory: Table, dirty: set<string>, stored: Table, count: int, size: nat)

  /** Memory laid over storage. */
  function Ads(s: Levels): Table {
    s.stored + s.memory
  }

  /**
   The counter is the size of the memory and within bounds, a clean ad in memory
   equals its stored copy, and a key left marked after its removal is not stored.
   */
  predicate Coherent(s: Levels) {
    && s.count == |s.memory| <= s.size
    && (forall key :: key in s.memory && key !in s.dirty ==> key in s.stored && s.stored[key] == s.memory[key])
    && (forall key :: key in s.dirty && key !in s.memory ==> key !in s.stored)
  }

  predicate Full(s: Levels) {
    s.count == s.size
  }

  /** Any ad in memory may be chosen to leave a full cache. */
  predicate MayLeave(s: Levels, victim: string) {
    Full(s) ==> victim in s.memory
  }

  /** `MaybeSwapOutClassAd` */
  function SwappedOut(s: Levels, victim: string): Levels
    requires MayLeave(s, victim)
  {
    if !Full(s) then s
    else
      var stored := if victim in s.dirty then s.stored[victim := s.memory[victim]] else s.stored;
      Levels(s.memory - {victim}, s.dirty - {victim}, stored, s.count - 1, s.size)
  }

  /** The key taken out of the way of a new ad: from memory, or else from storage. */
  function Cleared(s: Levels, key: string): Levels {
    if key in s.memory then s.(memory := s.memory - {key}, count := s.count - 1)
    else s.(stored := s.stored - {key})
  }

  function Entered(s: Levels, key: string, ad: Ad, dirty: bool): Levels {
    s.(memory := s.memory[key := ad], dirty := if dirty then s.dirty + {key} else s.dirty, count := s.count + 1)
  }

  /** `AddClassAd_NoTransaction` */
  function AddedAd(s: Levels, key: string, ad: Ad, victim: string): Levels
    requires MayLeave(Cleared(s, key), victim)
  {
    Entered(SwappedOut(Cleared(s, key), victim), key, ad, true)
  }

  /** `SwitchInClassAd`, for a key that is not in memory. */
  function SwitchedIn(s: Levels, key: string, victim: string): Levels
    requires MayLeave(s, victim) && key !in s.memory && key in SwappedOut(s, victim).stored
  {
    var s1 := SwappedOut(s, victim);
    Entered(s1, key, s1.stored[key], false)
  }

  /** `UpdateClassAd`, once the ad is in memory. */
  function ChangedAd(s: Levels, key: string, op: Op): Levels
    requires key in s.memory && (op.UpdateAd? || op.ModifyAd?)
  {
    s.(memory := s.memory[key := Changed(s.memory[key], op)], dirty := s.dirty + {key})
  }

  /** `RemoveClassAd`; the dirty mark stays. */
  function RemovedAd(s: Levels, key: string): Levels {
    Levels(s.memory - {key}, s.dirty, s.stored - {key}, if key in s.memory then s.count - 1 else s.count, s.size)
  }

  // ---------- the two levels refine one map ----------

  lemma CountWith(m: Table, key: string, ad: Ad)
    ensures |m[key := ad]| == if key in m then |m| else |m| + 1
  {
    assert m[key := ad].Keys == m.Keys + {key};
    assert |m[key := ad]| == |m[key := ad].Keys| && |m| == |m.Keys|;
  }

  lemma CountWithout(m: Table, key: string)
    ensures |m - {key}| == if key in m then |m| - 1 else |m|
  {
    assert (m - {key}).Keys == m.Keys - {key};
    assert |m - {key}| == |(m - {key}).Keys| && |m| == |m.Keys|;
  }

  /** What the two levels hold for a key. */
  function Look(s: Levels, key: string): Option<Ad> {
    if key in s.memory then Some(s.memory[key]) else Get(s.stored, key)
  }

  lemma AdsAreLooks(s: Levels, key: string)
    ensures Get(Ads(s), key) == Look(s, key)
  {
  }

  /** Two level states holding the same for every key stand for the same map. */
  lemma SameAds(s: Levels, t: Table)
    requires forall key :: Look(s, key) == Get(t, key)
    ensures Ads(s) == t
  {
    forall key ensures Get(Ads(s), key) == Get(t, key) { AdsAreLooks(s, key); }
    hide Look;
    hide Ads;
    TablesEqual(Ads(s), t);
  }

  lemma SwapOutKeeps(s: Levels, victim: string)
    requires Coherent(s) && MayLeave(s, victim) && s.size > 0
    ensures Coherent(SwappedOut(s, victim)) && !Full(SwappedOut(s, victim))
    ensures forall key :: Look(SwappedOut(s, victim), key) == Look(s, key)
    ensures forall key :: key in s.stored && key !in s.memory ==> key in SwappedOut(s, victim).stored
    ensures SwappedOut(s, victim).memory.Keys <= s.memory.Keys && SwappedOut(s, victim).dirty <= s.dirty
  {
    CountWithout(s.memory, victim);
  }

  lemma ClearedKeeps(s: Levels, key: string)
    requires Coherent(s)
    ensures Cleared(s, key).count == |Cleared(s, key).memory| <= s.size
    ensures forall k :: k != key ==> Look(Cleared(s, key), k) == Look(s, k)
  {
    CountWithout(s.memory, key);
  }

  lemma EnterDirty(s: Levels, key: string, ad: Ad)
    requires s.count == |s.memory| < s.size && key !in s.memory
    requires forall k :: k in s.memory && k !in s.dirty ==> k in s.stored && s.stored[k] == s.memory[k]
    requires forall k :: k in s.dirty && k !in s.memory && k != key ==> k !in s.stored
    ensures Coherent(Entered(s, key, ad, true))
    ensures forall k :: Look(Entered(s, key, ad, true), k) == if k == key then Some(ad) else Look(s, k)
  {
    CountWith(s.memory, key, ad);
  }

  lemma GetWith(t: Table, key: string, ad: Ad, k: string)
    ensures Get(t[key := ad], k) == if k == key then Some(ad) else Get(t, k)
    ensures Get(t - {key}, k) == if k == key then None else Get(t, k)
  {
  }

  lemma ReplacedLook(s: Levels, key: string, ad: Ad)
    requires Coherent(s) && key in s.memory
    ensures !Full(Cleared(s, key)) && Coherent(Entered(Cleared(s, key), key, ad, true))
    ensures forall k :: Look(Entered(Cleared(s, key), key, ad, true), k) == if k == key then Some(ad) else Look(s, k)
  {
    CountWithout(s.memory, key);
    EnterDirty(Cleared(s, key), key, ad);
    ClearedKeeps(s, key);
    hide Entered;
  }

  lemma DroppedLook(s: Levels, key: string)
    requires Coherent(s) && key !in s.memory
    ensures Coherent(Cleared(s, key)) && forall k :: k != key ==> Look(Cleared(s, key), k) == Look(s, k)
  {
  }

  /** A key whose ad is only in the file is lost when it is cleared. */
  lemma DropRefines(s: Levels, key: string)
    requires Coherent(s) && key !in s.memory
    ensures Coherent(Cleared(s, key)) && Ads(Cleared(s, key)) == Ads(s) - {key}
  {
    DroppedLook(s, key);
    forall k ensures Look(Cleared(s, key), k) == Get(Ads(s) - {key}, k) { AdsAreLooks(s, k); }
    SameAds(Cleared(s, key), Ads(s) - {key});
  }

  lemma AddedLook(s: Levels, key: string, ad: Ad, victim: string)
    requires Coherent(s) && s.size > 0 && MayLeave(Cleared(s, key), victim)
    ensures Coherent(AddedAd(s, key, ad, victim))
    ensures forall k :: Look(AddedAd(s, key, ad, victim), k) == if k == key then Some(ad) else Look(s, k)
  {
    var s1 := Cleared(s, key);
    var s2 := SwappedOut(s1, victim);
    if key in s.memory {
      ReplacedLook(s, key, ad);
      assert s2 == s1;
      hide Look;
      hide Coherent;
      hide Cleared;
      hide Entered;
    } else {
      DroppedLook(s, key);
      SwapOutKeeps(s1, victim);
      assert key !in s1.memory && s1.size == s.size;
      assert s2.count == |s2.memory| < s2.size && key !in s2.memory;
      EnterDirty(s2, key, ad);
      hide Look;
      hide Coherent;
      hide Cleared;
      hide Entered;
      hide SwappedOut;
    }
  }

  /** Adding to the cache is adding to the map. */
  lemma AddRefines(s: Levels, key: string, ad: Ad, victim: string)
    requires Coherent(s) && s.size > 0 && MayLeave(Cleared(s, key), victim)
    ensures Coherent(AddedAd(s, key, ad, victim)) && Ads(AddedAd(s, key, ad, victim)) == Ads(s)[key := ad]
  {
    hide *;
    AddedLook(s, key, ad, victim);
    forall k ensures Look(AddedAd(s, key, ad, victim), k) == Get(Ads(s)[key := ad], k) {
      AdsAreLooks(s, k);
      GetWith(Ads(s), key, ad, k);
    }
    SameAds(AddedAd(s, key, ad, victim), Ads(s)[key := ad]);
  }

  /** Bringing an ad into memory changes nothing, and the ad comes in clean. */
  lemma SwitchInRefines(s: Levels, key: string, victim: string)
    requires Coherent(s) && s.size > 0 && MayLeave(s, victim) && key !in s.memory && key in s.stored
    ensures key in SwappedOut(s, victim).stored
    ensures Coherent(SwitchedIn(s, key, victim)) && Ads(SwitchedIn(s, key, victim)) == Ads(s)
    ensures Look(SwitchedIn(s, key, victim), key) == Get(Ads(s), key)
    ensures key !in SwitchedIn(s, key, victim).dirty
  {
    SwapOutKeeps(s, victim);
    assert key !in s.dirty;
    var s1 := SwappedOut(s, victim);
    EnterClean(s1, key);
    hide Coherent;
    hide SwappedOut;
    forall k ensures Look(SwitchedIn(s, key, victim), k) == Get(Ads(s), k) { AdsAreLooks(s, k); }
    SameAds(SwitchedIn(s, key, victim), Ads(s));
  }

  lemma EnterClean(s: Levels, key: string)
    requires Coherent(s) && !Full(s) && key !in s.memory && key in s.stored
    ensures Coherent(Entered(s, key, s.stored[key], false))
    ensures forall k :: Look(Entered(s, key, s.stored[key], false), k) == Look(s, k)
  {
    CountWith(s.memory, key, s.stored[key]);
  }

  lemma ChangedLook(s: Levels, key: string, op: Op)
    requires Coherent(s) && key in s.memory && (op.UpdateAd? || op.ModifyAd?)
    ensures Coherent(ChangedAd(s, key, op))
    ensures forall k ::
      Look(ChangedAd(s, key, op), k) == if k == key then Some(Changed(s.memory[key], op)) else Look(s, k)
  {
    hide Changed;
    CountWith(s.memory, key, Changed(s.memory[key], op));
  }

  lemma ChangeRefines(s: Levels, key: string, op: Op)
    requires Coherent(s) && key in s.memory && (op.UpdateAd? || op.ModifyAd?)
    ensures key in Ads(s) && Ads(s)[key] == s.memory[key] && Coherent(ChangedAd(s, key, op))
    ensures Ads(ChangedAd(s, key, op)) == Ads(s)[key := Changed(s.memory[key], op)]
  {
    assert key in Ads(s) && Ads(s)[key] == s.memory[key];
    hide *;
    var t := Ads(s)[key := Changed(s.memory[key], op)];
    ChangedLook(s, key, op);
    forall k ensures Look(ChangedAd(s, key, op), k) == Get(t, k) {
      AdsAreLooks(s, k);
      GetWith(Ads(s), key, Changed(s.memory[key], op), k);
    }
    SameAds(ChangedAd(s, key, op), t);
  }

  /**
   A change played from a transaction or a log does not mark the ad: the two
   levels stay coherent only if the ad was dirty already or did not change.
   */
  lemma UnmarkedChange(s: Levels, key: string, op: Op)
    requires Coherent(s) && key in s.memory && (op.UpdateAd? || op.ModifyAd?)
    ensures Coherent(s.(memory := s.memory[key := Changed(s.memory[key], op)])) <==>
            key in s.dirty || Changed(s.memory[key], op) == s.memory[key]
  {
    hide Changed;
    CountWith(s.memory, key, Changed(s.memory[key], op));
    assert key in s.dirty || s.stored[key] == s.memory[key];
  }

  /** Marked or not, what the two levels hold is the changed ad. */
  lemma UnmarkedAds(s: Levels, key: string, op: Op)
    requires key in s.memory && (op.UpdateAd? || op.ModifyAd?)
    ensures Ads(s.(memory := s.memory[key := Changed(s.memory[key], op)])) == Ads(ChangedAd(s, key, op))
  {
    hide Changed;
  }

  lemma RemovedLook(s: Levels, key: string)
    requires Coherent(s)
    ensures Coherent(RemovedAd(s, key))
    ensures forall k :: Look(RemovedAd(s, key), k) == if k == key then None else Look(s, k)
  {
    CountWithout(s.memory, key);
  }

  lemma RemoveRefines(s: Levels, key: string)
    requires Coherent(s)
    ensures Coherent(RemovedAd(s, key)) && Ads(RemovedAd(s, key)) == Ads(s) - {key}
  {
    hide *;
    RemovedLook(s, key);
    forall k ensures Look(RemovedAd(s, key), k) == Get(Ads(s) - {key}, k) {
      AdsAreLooks(s, k);
      GetWith(Ads(s), key, map[], k);
    }
    SameAds(RemovedAd(s, key), Ads(s) - {key});
  }

  // ---------- the cache in front of the file ----------

  /** The ads that lines of the file stand for. */
  function AdsOf(codec: Codec, lines: map<string, string>): Table {
    map key | key in lines :: codec.adOf(lines[key])
  }

  lemma AdsOfWith(codec: Codec, lines: map<string, string>, key: string, ad: Ad)
    requires Sound(codec)
    ensures AdsOf(codec, lines[key := codec.text(key, ad)]) == AdsOf(codec, lines)[key := ad]
  {
  }

  lemma AdsOfWithout(codec: Codec, lines: map<string, string>, key: string)
    ensures AdsOf(codec, lines - {key}) == AdsOf(codec, lines) - {key}
  {
  }

  class CachedCollection {
    const codec: Codec
    const file: IndexFile
    const size: nat
    var memory: Table
    var dirty: set<string>
    var count: int

    ghost function State(): Levels
      reads this, file
    {
      Levels(memory, dirty, AdsOf(codec, file.Contents()), count, size)
    }

    ghost predicate FileValid()
      reads file
    {
      Sound(codec) && file.k == codec.keyOf && file.Valid()
    }

    ghost predicate Valid()
      reads this, file
    {
      FileValid() && size > 0 && Coherent(State())
    }

    constructor (c: Codec, cacheSize: nat)
      requires Sound(c) && cacheSize > 0
      ensures Valid() && codec == c && size == cacheSize && Ads(State()) == map[] && fresh(file)
    {
      codec, size := c, cacheSize;
      file := new IndexFile(c.keyOf);
      memory, dirty, count := map[], {}, 0;
    }

    /** A full cache gives up any one of its ads, written back when dirty. */
    method MaybeSwapOut() returns (ghost victim: string)
      requires FileValid() && count == |memory| && size > 0
      modifies this, file
      ensures FileValid() && MayLeave(old(State()), victim) && State() == SwappedOut(old(State()), victim)
    {
      hide AdsOf;
      victim := "";
      if count != size { return; }
      assert memory != map[];
      var key :| key in memory;
      victim := key;
      if key in dirty {
        AdsOfWith(codec, file.Contents(), key, memory[key]);
        file.WriteBack(key, codec.text(key, memory[key]));
      }
      dirty := dirty - {key};
      memory := memory - {key};
      count := count - 1;
    }

    /** Takes an old ad under the key out of memory, or else out of the file. */
    method ClearKey(key: string)
      requires FileValid()
      modifies this, file
      ensures FileValid() && State() == Cleared(old(State()), key)
    {
      hide AdsOf;
      if key in memory {
        memory := memory - {key};
        count := count - 1;
      } else {
        AdsOfWithout(codec, file.Contents(), key);
        var found := file.DeleteFromStorageFile(key);
      }
    }

    method EnterAd(key: string, ad: Ad, mark: bool)
      modifies this
      ensures State() == Entered(old(State()), key, ad, mark)
    {
      hide AdsOf;
      if mark { dirty := dirty + {key}; }
      count := count + 1;
      memory := memory[key := ad];
    }

    /** Clears the key, makes room and enters the ad as a dirty one. */
    method ReplaceAd(key: string, ad: Ad)
      requires Valid()
      modifies this, file
      ensures Valid() && Ads(State()) == old(Ads(State()))[key := ad]
    {
      ghost var s := State();
      ClearedKeeps(s, key);
      hide Coherent;
      hide AdsOf;
      hide Ads;
      hide Cleared;
      hide SwappedOut;
      hide FileValid;
      ClearKey(key);
      ghost var victim := MaybeSwapOut();
      AddRefines(s, key, ad, victim);
      hide Entered;
      EnterAd(key, ad, true);
    }

    method DropStored(key: string)
      requires Valid() && key !in memory
      modifies this, file
      ensures Valid() && Ads(State()) == old(Ads(State())) - {key}
    {
      DropRefines(State(), key);
      hide Coherent;
      hide AdsOf;
      hide Ads;
      hide Cleared;
      hide FileValid;
      ClearKey(key);
    }

    /**
     When the views refuse the new ad, an old one in memory is put back; one that
     was only in the file has been deleted by then and is lost.
     */
    method AddClassAd(key: string, ad: Ad, refused: bool) returns (ok: bool)
      requires Valid()
      modifies this, file
      ensures Valid() && ok == !refused
      ensures ok ==> Ads(State()) == old(Ads(State()))[key := ad]
      ensures !ok ==> Ads(State()) == if key in old(memory) then old(Ads(State())) else old(Ads(State())) - {key}
    {
      ok := !refused;
      assert key in memory ==> Ads(State())[key := memory[key]] == Ads(State());
      hide Coherent;
      hide AdsOf;
      hide Ads;
      hide FileValid;
      if ok {
        ReplaceAd(key, ad);
      } else if key in memory {
        ReplaceAd(key, memory[key]);
      } else {
        DropStored(key);
      }
    }

    /** The ad that the file holds for a key. */
    method ReadAd(key: string) returns (ad: Ad)
      requires FileValid() && key in State().stored
      ensures ad == State().stored[key]
    {
      SameKeys(file.k, file.lines);
      assert key in file.Contents();
      var line := file.GetClassadFromFile(key);
      ad := codec.adOf(line);
    }

    /** Brings a stored ad into memory. */
    method SwitchInClassAd(key: string)
      requires Valid() && key !in memory && key in State().stored
      modifies this, file
      ensures Valid() && Ads(State()) == old(Ads(State())) && key in memory &&
        Some(memory[key]) == Get(Ads(State()), key)
    {
      ghost var s := State();
      assert s.count == |s.memory|;
      hide Coherent;
      hide Ads;
      hide AdsOf;
      hide SwappedOut;
      hide FileValid;
      ghost var victim := MaybeSwapOut();
      SwitchInRefines(s, key, victim);
      var ad := ReadAd(key);
      EnterAd(key, ad, false);
    }

    /**
     `UpdateClassAd` and `ModifyClassAd`.  A change that the views refuse is not
     taken back and not marked, so the levels may no longer agree.
     */
    method ChangeClassAd(key: string, op: Op, refused: bool) returns (ok: bool)
      requires Valid() && (op.UpdateAd? || op.ModifyAd?)
      modifies this, file
      ensures FileValid() && ok == (key in old(Ads(State())) && !refused)
      ensures var was := old(Ads(State()));
        && Ads(State()) == (if key in was then was[key := Changed(was[key], op)] else was)
        && (Valid() <==> ok || key !in was || key in dirty || Changed(was[key], op) == was[key])
    {
      hide Coherent;
      hide Changed;
      SameKeys(file.k, file.lines);
      assert key in file.index <==> key in State().stored;
      if key !in memory {
        if key !in file.index { return false; }
        SwitchInClassAd(key);
      }
      ghost var s := State();
      ChangeRefines(s, key, op);
      UnmarkedChange(s, key, op);
      UnmarkedAds(s, key, op);
      hide AdsOf;
      hide Ads;
      memory := memory[key := Changed(memory[key], op)];
      if refused { return false; }
      dirty := dirty + {key};
      assert State() == ChangedAd(s, key, op);
      ok := true;
    }

    method RemoveClassAd(key: string)
      requires Valid()
      modifies this, file
      ensures Valid() && Ads(State()) == old(Ads(State())) - {key}
    {
      hide Coherent;
      hide AdsOf;
      hide Ads;
      ghost var s := State();
      RemoveRefines(s, key);
      AdsOfWithout(codec, file.Contents(), key);
      var found := file.DeleteFromStorageFile(key);
      if key in memory { count := count - 1; }
      memory := memory - {key};
      assert State() == RemovedAd(s, key);
    }

    method GetClassAd(key: string) returns (ad: Option<Ad>)
      requires Valid()
      modifies this, file
      ensures Valid() && Ads(State()) == old(Ads(State())) && ad == Get(Ads(State()), key)
    {
      hide Coherent;
      SameKeys(file.k, file.lines);
      assert key in file.index <==> key in State().stored;
      if key !in memory {
        if key !in file.index { return None; }
        SwitchInClassAd(key);
      }
      ad := Some(memory[key]);
    }
  }
}
