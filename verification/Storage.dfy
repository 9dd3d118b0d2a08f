/**
 The storage file of a cached collection: one line per ad, a star written over
 the first character of a deleted line, and an index from keys to offsets.
 */
module Storage {
  /** The key that a stored line parses to. */
  type KeyOf = string -> string

  // ---------- lines ----------

  function Join(lines: seq<string>): string {
    if lines == [] then "" else lines[0] + "\n" + Join(lines[1..])
  }

  predicate IsLine(line: string) {
    line != "" && '\n' !in line
  }

  predicate AllLines(lines: seq<string>) {
    forall i :: 0 <= i < |lines| ==> IsLine(lines[i])
  }

  predicate IsLive(line: string) {
    line != "" && line[0] != '*'
  }

  /** The bytes from `at` up to the next newline or the end. */
  function LineAt(bytes: string, at: nat): (line: string)
    requires at <= |bytes|
    ensures '\n' !in line && at + |line| <= |bytes| && bytes[at..at + |line|] == line
    ensures at + |line| < |bytes| ==> bytes[at + |line|] == '\n'
    decreases |bytes| - at
  {
    if at == |bytes| || bytes[at] == '\n' then "" else [bytes[at]] + LineAt(bytes, at + 1)
  }

  /** The live line of each key, the last one standing. */
  function Held(k: KeyOf, lines: seq<string>): map<string, string> {
    if lines == [] then map[]
    else
      var n := |lines| - 1;
      var before := Held(k, lines[..n]);
      if IsLive(lines[n]) then before[k(lines[n]) := lines[n]] else before
  }

  /** Its offset. */
  function Offsets(k: KeyOf, lines: seq<string>): map<string, nat> {
    if lines == [] then map[]
    else
      var n := |lines| - 1;
      var before := Offsets(k, lines[..n]);
      if IsLive(lines[n]) then before[k(lines[n]) := |Join(lines[..n])|] else before
  }

  /** No two live lines have the same key. */
  predicate OneEach(k: KeyOf, lines: seq<string>) {
    forall i, j :: 0 <= i < j < |lines| && IsLive(lines[i]) && IsLive(lines[j]) ==> k(lines[i]) != k(lines[j])
  }

  // ---------- joining ----------

  lemma {:induction false} JoinLast(lines: seq<string>, line: string)
    ensures Join(lines + [line]) == Join(lines) + line + "\n"
  {
    if lines == [] {
      assert [line][1..] == [];
      assert [] + [line] == [line];
      assert Join([line]) == line + "\n" + "";
    } else {
      JoinLast(lines[1..], line);
      assert (lines + [line])[1..] == lines[1..] + [line];
    }
  }

  lemma {:induction false} JoinSplit(lines: seq<string>, i: nat)
    requires i < |lines|
    ensures Join(lines) == Join(lines[..i]) + lines[i] + "\n" + Join(lines[i + 1..])
  {
    if i == 0 {
      assert lines[..0] == [];
    } else {
      JoinSplit(lines[1..], i - 1);
      assert lines[..i][1..] == lines[1..][..i - 1] && lines[1..][i..] == lines[i + 1..];
      assert lines[..i][0] == lines[0];
    }
  }

  lemma {:induction false} JoinTake(lines: seq<string>, i: nat)
    requires i <= |lines|
    ensures |Join(lines[..i])| <= |Join(lines)| && Join(lines)[..|Join(lines[..i])|] == Join(lines[..i])
  {
    if i < |lines| { JoinSplit(lines, i); } else { assert lines[..i] == lines; }
  }

  /** Reading at the offset of a line yields the line. */
  lemma {:induction false} ReadsLine(lines: seq<string>, i: nat)
    requires i < |lines| && AllLines(lines)
    ensures |Join(lines[..i])| + |lines[i]| < |Join(lines)|
    ensures LineAt(Join(lines), |Join(lines[..i])|) == lines[i]
  {
    JoinSplit(lines, i);
    ReadsTo(Join(lines), |Join(lines[..i])|, lines[i]);
  }

  lemma {:induction false} ReadsTo(bytes: string, at: nat, line: string)
    requires '\n' !in line && at + |line| < |bytes| && bytes[at..at + |line|] == line && bytes[at + |line|] == '\n'
    ensures LineAt(bytes, at) == line
    decreases |line|
  {
    if line != "" {
      assert bytes[at] == line[0];
      assert bytes[at + 1..at + |line|] == line[1..];
      ReadsTo(bytes, at + 1, line[1..]);
    }
  }

  // ---------- what the index says ----------

  lemma {:induction false} IndexMeans(k: KeyOf, lines: seq<string>, key: string) returns (i: nat)
    requires key in Offsets(k, lines)
    ensures i < |lines| && IsLive(lines[i]) && k(lines[i]) == key && key in Held(k, lines)
    ensures Held(k, lines)[key] == lines[i] && Offsets(k, lines)[key] == |Join(lines[..i])|
    decreases |lines|
  {
    var n := |lines| - 1;
    if IsLive(lines[n]) && k(lines[n]) == key {
      i := n;
    } else {
      i := IndexMeans(k, lines[..n], key);
      assert lines[..n][..i] == lines[..i];
    }
  }

  lemma {:induction false} LiveIsIndexed(k: KeyOf, lines: seq<string>, i: nat)
    requires i < |lines| && IsLive(lines[i]) && OneEach(k, lines)
    ensures k(lines[i]) in Held(k, lines) && Held(k, lines)[k(lines[i])] == lines[i]
    ensures k(lines[i]) in Offsets(k, lines) && Offsets(k, lines)[k(lines[i])] == |Join(lines[..i])|
    decreases |lines|
  {
    var n := |lines| - 1;
    if i < n {
      LiveIsIndexed(k, lines[..n], i);
      assert lines[..n][..i] == lines[..i];
    }
  }

  lemma {:induction false} SameKeys(k: KeyOf, lines: seq<string>)
    ensures Held(k, lines).Keys == Offsets(k, lines).Keys
  {
    if lines != [] { SameKeys(k, lines[..|lines| - 1]); }
  }

  // ---------- appending and deleting ----------

  lemma {:induction false} AppendIndex(k: KeyOf, lines: seq<string>, line: string)
    requires AllLines(lines) && OneEach(k, lines) && IsLine(line) && IsLive(line) && k(line) !in Held(k, lines)
    ensures AllLines(lines + [line]) && OneEach(k, lines + [line])
    ensures Held(k, lines + [line]) == Held(k, lines)[k(line) := line]
    ensures Offsets(k, lines + [line]) == Offsets(k, lines)[k(line) := |Join(lines)|]
  {
    var more := lines + [line];
    assert more[..|lines|] == lines;
    forall i | 0 <= i < |lines| && IsLive(lines[i]) ensures k(lines[i]) != k(line) { LiveIsIndexed(k, lines, i); }
  }

  function Starred(line: string): string
    requires line != ""
  {
    "*" + line[1..]
  }

  /** Starring a line takes its key out of the index and moves nothing. */
  lemma {:induction false} StarIndex(k: KeyOf, lines: seq<string>, i: nat)
    requires i < |lines| && AllLines(lines) && OneEach(k, lines) && IsLive(lines[i])
    ensures AllLines(lines[i := Starred(lines[i])]) && OneEach(k, lines[i := Starred(lines[i])])
    ensures Held(k, lines[i := Starred(lines[i])]) == Held(k, lines) - {k(lines[i])}
    ensures Offsets(k, lines[i := Starred(lines[i])]) == Offsets(k, lines) - {k(lines[i])}
    decreases |lines|
  {
    var n, star := |lines| - 1, Starred(lines[i]);
    var after := lines[i := star];
    if i == n {
      assert after[..n] == lines[..n];
      AbsentBefore(k, lines);
    } else {
      StarIndex(k, lines[..n], i);
      assert after[..n] == lines[..n][i := star];
      StarLength(lines[..n], i);
    }
  }

  lemma {:induction false} AbsentBefore(k: KeyOf, lines: seq<string>)
    requires lines != [] && OneEach(k, lines) && IsLive(lines[|lines| - 1])
    ensures k(lines[|lines| - 1]) !in Held(k, lines[..|lines| - 1]) &&
      k(lines[|lines| - 1]) !in Offsets(k, lines[..|lines| - 1])
  {
    var n := |lines| - 1;
    var key := k(lines[n]);
    SameKeys(k, lines[..n]);
    assert forall i :: 0 <= i < n ==> lines[..n][i] == lines[i];
    if key in Offsets(k, lines[..n]) {
      var i := IndexMeans(k, lines[..n], key);
      assert false;
    }
  }

  lemma {:induction false} StarLength(lines: seq<string>, i: nat)
    requires i < |lines| && lines[i] != ""
    ensures |Join(lines[i := Starred(lines[i])])| == |Join(lines)|
  {
    JoinSplit(lines, i);
    JoinSplit(lines[i := Starred(lines[i])], i);
    assert lines[i := Starred(lines[i])][..i] == lines[..i];
    assert lines[i := Starred(lines[i])][i + 1..] == lines[i + 1..];
  }

  /** Writing the starred line and its newline over the old one. */
  lemma {:induction false} StarBytes(lines: seq<string>, i: nat)
    requires i < |lines| && AllLines(lines)
    ensures var at := |Join(lines[..i])|; var n := |lines[i]|;
            at + n + 1 <= |Join(lines)| &&
            Join(lines)[..at] + (Starred(lines[i]) + "\n") + Join(lines)[at + n + 1..] ==
              Join(lines[i := Starred(lines[i])])
  {
    var after := lines[i := Starred(lines[i])];
    JoinSplit(lines, i);
    JoinSplit(after, i);
    assert after[..i] == lines[..i] && after[i + 1..] == lines[i + 1..];
  }

  // ---------- scanning ----------

  /** Where reading goes on after the line at `at`. */
  function Beyond(bytes: string, at: nat): (next: nat)
    requires at <= |bytes|
    ensures at <= next <= |bytes| && (LineAt(bytes, at) != "" ==> at < next)
  {
    var n := at + |LineAt(bytes, at)|;
    if n < |bytes| then n + 1 else |bytes|
  }

  function Entry(k: KeyOf, index: map<string, nat>, line: string, at: nat): map<string, nat> {
    if IsLive(line) then index[k(line) := at] else index
  }

  /** The scan at start-up, from `at` on: an empty line or the end stops it. */
  function Scan(k: KeyOf, bytes: string, at: nat, index: map<string, nat>): map<string, nat>
    requires at <= |bytes|
    decreases |bytes| - at
  {
    var line := LineAt(bytes, at);
    if line == "" then index else Scan(k, bytes, Beyond(bytes, at), Entry(k, index, line, at))
  }

  lemma ScanStep(k: KeyOf, bytes: string, at: nat, index: map<string, nat>)
    requires at <= |bytes|
    ensures LineAt(bytes, at) == "" ==> Scan(k, bytes, at, index) == index
    ensures LineAt(bytes, at) != "" ==>
              Scan(k, bytes, at, index) == Scan(k, bytes, Beyond(bytes, at), Entry(k, index, LineAt(bytes, at), at))
  {
    hide LineAt;
    hide Beyond;
    hide Entry;
  }

  /** The index and the offset after one more line. */
  lemma {:induction false} NextLine(k: KeyOf, lines: seq<string>, i: nat)
    requires i < |lines| && AllLines(lines)
    ensures |Join(lines[..i])| <= |Join(lines)| && LineAt(Join(lines), |Join(lines[..i])|) == lines[i]
    ensures Beyond(Join(lines), |Join(lines[..i])|) == |Join(lines[..i + 1])|
    ensures Entry(k, Offsets(k, lines[..i]), lines[i], |Join(lines[..i])|) == Offsets(k, lines[..i + 1])
  {
    ReadsLine(lines, i);
    JoinLast(lines[..i], lines[i]);
    hide Join;
    hide LineAt;
    assert lines[..i] + [lines[i]] == lines[..i + 1];
    assert lines[..i + 1][..i] == lines[..i];
  }

  lemma {:induction false} ScanFrom(k: KeyOf, lines: seq<string>, i: nat)
    requires i <= |lines| && AllLines(lines)
    ensures |Join(lines[..i])| <= |Join(lines)|
    ensures Scan(k, Join(lines), |Join(lines[..i])|, Offsets(k, lines[..i])) == Offsets(k, lines)
    decreases |lines| - i
  {
    hide Join;
    hide Offsets;
    hide Beyond;
    hide Entry;
    hide Scan;
    JoinTake(lines, i);
    ScanStep(k, Join(lines), |Join(lines[..i])|, Offsets(k, lines[..i]));
    if i == |lines| {
      assert lines[..i] == lines;
    } else {
      hide LineAt;
      NextLine(k, lines, i);
      ScanFrom(k, lines, i + 1);
    }
  }

  /** Scanning the bytes rebuilds exactly the index. */
  lemma {:induction false} ScanRebuilds(k: KeyOf, lines: seq<string>)
    requires AllLines(lines)
    ensures Scan(k, Join(lines), 0, map[]) == Offsets(k, lines)
  {
    assert lines[..0] == [];
    ScanFrom(k, lines, 0);
  }

  // ---------- compaction ----------

  predicate Lists(keys: seq<string>, held: map<string, string>) {
    (forall key :: key in keys ==> key in held) && (forall key :: key in held ==> key in keys)
    && forall i, j :: 0 <= i < j < |keys| ==> keys[i] != keys[j]
  }

  function Lines(keys: seq<string>, held: map<string, string>): (lines: seq<string>)
    requires forall key :: key in keys ==> key in held
    ensures |lines| == |keys| && forall i :: 0 <= i < |keys| ==> lines[i] == held[keys[i]]
  {
    seq(|keys|, i requires 0 <= i < |keys| => held[keys[i]])
  }

  /** The live lines written out in any order hold the same ads. */
  lemma {:induction false} CompactHolds(k: KeyOf, lines: seq<string>, keys: seq<string>)
    requires AllLines(lines) && OneEach(k, lines) && Lists(keys, Held(k, lines))
    ensures var some := Lines(keys, Held(k, lines));
            AllLines(some) && OneEach(k, some) && Held(k, some) == Held(k, lines)
  {
    var held := Held(k, lines);
    var some := Lines(keys, held);
    SameKeys(k, lines);
    forall i | 0 <= i < |keys| ensures IsLine(some[i]) && IsLive(some[i]) && k(some[i]) == keys[i] {
      var j := IndexMeans(k, lines, keys[i]);
    }
    forall i | 0 <= i < |keys| ensures keys[i] in Held(k, some) && Held(k, some)[keys[i]] == held[keys[i]] {
      LiveIsIndexed(k, some, i);
    }
    SameKeys(k, some);
    forall key | key in Held(k, some) ensures key in held {
      var i := IndexMeans(k, some, key);
    }
  }

  lemma {:induction false} LineOfKey(k: KeyOf, lines: seq<string>, key: string)
    requires key in Held(k, lines)
    ensures IsLive(Held(k, lines)[key]) && k(Held(k, lines)[key]) == key
  {
    SameKeys(k, lines);
    var i := IndexMeans(k, lines, key);
  }

  /** One more line written and indexed. */
  lemma {:induction false} OffsetsNext(k: KeyOf, lines: seq<string>, i: nat)
    requires i < |lines| && IsLive(lines[i])
    ensures Join(lines[..i + 1]) == Join(lines[..i]) + lines[i] + "\n"
    ensures Offsets(k, lines[..i + 1]) == Offsets(k, lines[..i])[k(lines[i]) := |Join(lines[..i])|]
  {
    assert lines[..i + 1] == lines[..i] + [lines[i]] && lines[..i + 1][..i] == lines[..i];
    JoinLast(lines[..i], lines[i]);
    hide Join;
  }
}
