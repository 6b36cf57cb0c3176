/** `IniManager` of mng/hdr/inicpp.h: `parse` builds a map of sections with a
    line index, `modify` rewrites the file by that index.  Both are proved
    against the positions of `IniSpec`. */
module IniManager {
  import opened Options
  import opened IniLines
  import opened IniSpec
  import IniLens

  datatype KeyValueNode = KeyValueNode(value: string, lineNumber: int)

  /** A section record; the map holds copies of it, so it is a value. */
  datatype Section = Section(name: string, line: int, keys: map<string, KeyValueNode>) {
    function SetValue(k: string, v: string, n: int): Section {
      this.(keys := keys[k := KeyValueNode(v, n)])
    }

    /** `append`: `std::map::insert` never overwrites a key already there. */
    function Append(sec: Section): Section { this.(keys := sec.keys + keys) }

    function GetLine(k: string): int { if k in keys then keys[k].lineNumber else -1 }
  }

  type IniData = map<string, Section>

  function AddSection(m: IniData, rec: Section): IniData {
    if rec.name in m then m[rec.name := m[rec.name].Append(rec)] else m[rec.name := rec]
  }

  function LineIn(m: IniData, s: string, k: string): int {
    if s in m then m[s].GetLine(k) else -1
  }

  // ------------------------------------------------- what the loop keeps

  /** The node points at the line its value was read from. */
  predicate NodeRead(ls: seq<Row>, k: string, node: KeyValueNode) {
    && 1 <= node.lineNumber <= |ls|
    && HasKey(ls[node.lineNumber - 1])
    && KeyOf(ls[node.lineNumber - 1]) == k
    && ValueOf(ls[node.lineNumber - 1]) == node.value
  }

  predicate NodesRead(ls: seq<Row>, keys: map<string, KeyValueNode>) {
    forall k :: k in keys ==> NodeRead(ls, k, keys[k])
  }

  /** The sections committed so far and the record being filled, taken
      together, bind (`s`, `k`) to this line. */
  function LineOf(m: IniData, rec: Section, s: string, k: string): int {
    if LineIn(m, s, k) != -1 then LineIn(m, s, k)
    else if s == rec.name then rec.GetLine(k)
    else -1
  }

  /** Committed keys lie in earlier runs; a key of the record that is not
      committed under its section lies in the current one. */
  ghost predicate RunsApart(ls: seq<Row>, m: IniData, rec: Section) {
    && (forall s, k :: LineIn(m, s, k) != -1 ==> RunAt(ls, LineIn(m, s, k)) < Runs(ls))
    && (forall k :: rec.GetLine(k) != -1 && LineIn(m, rec.name, k) == -1 ==>
          RunAt(ls, rec.GetLine(k)) == Runs(ls))
  }

  ghost predicate MapRead(ls: seq<Row>, m: IniData) {
    forall s :: s in m ==> m[s].name == s && NodesRead(ls, m[s].keys)
  }

  /** A section is committed when it has keys or its first header is in an
      earlier run. */
  ghost predicate SectionsFound(ls: seq<Row>, m: IniData) {
    && (forall s :: s in m ==> m[s].keys != map[] || (HeaderCounts(ls, s) && m[s].line == FirstHeader(ls, s)))
    && (forall s :: HeaderCounts(ls, s) ==> s in m)
  }

  ghost predicate RecordFound(ls: seq<Row>, rec: Section, m: IniData) {
    && rec.name == SectionAfter(ls)
    && NodesRead(ls, rec.keys)
    && (rec.name != "" && rec.name !in m ==> rec.line == FirstHeader(ls, rec.name) != -1)
  }

  ghost predicate Reading(ls: seq<Row>, m: IniData, rec: Section) {
    && MapRead(ls, m) && SectionsFound(ls, m) && RecordFound(ls, rec, m) && RunsApart(ls, m, rec)
    && forall s, k :: LineOf(m, rec, s, k) == BoundLine(ls, s, k)
  }

  /** What `parse` leaves behind: the map is the reference reading. */
  ghost predicate Parsed(ls: seq<Row>, m: IniData) {
    && (forall s :: s in m <==> Known(ls, s))
    && (forall s, k :: LineIn(m, s, k) == BoundLine(ls, s, k))
    && MapRead(ls, m)
    && (forall s :: s in m && m[s].keys == map[] ==> m[s].line == FirstHeader(ls, s))
  }

  // ------------------------------------------------- one line at a time

  function Commit(m: IniData, rec: Section): IniData {
    if rec.keys != map[] || rec.name != "" then AddSection(m, rec) else m
  }

  lemma CommitLines(ls: seq<Row>, m: IniData, rec: Section)
    requires MapRead(ls, m) && NodesRead(ls, rec.keys)
    ensures forall s, k :: LineIn(Commit(m, rec), s, k) == LineOf(m, rec, s, k)
    ensures MapRead(ls, Commit(m, rec))
  {
    forall s, k ensures LineIn(Commit(m, rec), s, k) == LineOf(m, rec, s, k) { CommitLine(ls, m, rec, s, k); }
    forall s | s in Commit(m, rec) ensures NodesRead(ls, Commit(m, rec)[s].keys) {
      if s == rec.name && s in m && Commit(m, rec) != m { NodesUnion(ls, rec.keys, m[s].keys); }
    }
  }

  lemma NodesUnion(ls: seq<Row>, a: map<string, KeyValueNode>, b: map<string, KeyValueNode>)
    requires NodesRead(ls, a) && NodesRead(ls, b)
    ensures NodesRead(ls, a + b)
  {
  }

  lemma CommitLine(ls: seq<Row>, m: IniData, rec: Section, s: string, k: string)
    requires MapRead(ls, m) && NodesRead(ls, rec.keys)
    ensures LineIn(Commit(m, rec), s, k) == LineOf(m, rec, s, k)
  {
    if s == rec.name && s in m && k in m[s].keys { assert m[s].GetLine(k) != -1; }
  }

  lemma FirstHeaderStep(ls: seq<Row>, x: Row, s: string)
    ensures FirstHeader(ls + [x], s) ==
            if FirstHeader(ls, s) != -1 then FirstHeader(ls, s)
            else if Closed(x) && x.name == s then |ls| + 1 else -1
  {
    assert Init(ls + [x]) == ls;
  }

  lemma NodesStep(ls: seq<Row>, x: Row, keys: map<string, KeyValueNode>)
    requires NodesRead(ls, keys)
    ensures NodesRead(ls + [x], keys)
  {
  }

  lemma HeaderCountsStep(ls: seq<Row>, x: Row, s: string)
    ensures HeaderCounts(ls + [x], s) <==>
            s != "" && FirstHeader(ls, s) != -1 && (Opens(x) || HeaderCounts(ls, s))
  {
    FirstHeaderStep(ls, x, s);
    ShapeStep(ls, x);
    RunAtStep(ls, x);
    if FirstHeader(ls, s) != -1 {
      assert ls[..|ls|] == ls;
      RunsMonotone(ls, FirstHeader(ls, s), |ls|);
    }
    assert (ls + [x])[..|ls| + 1] == ls + [x];
  }

  lemma MapStep(ls: seq<Row>, x: Row, m: IniData)
    requires MapRead(ls, m)
    ensures MapRead(ls + [x], m)
  {
    forall s | s in m ensures NodesRead(ls + [x], m[s].keys) { NodesStep(ls, x, m[s].keys); }
  }

  /** A line that is no `[` line adds no section. */
  lemma SectionsStep(ls: seq<Row>, x: Row, m: IniData)
    requires SectionsFound(ls, m) && !Opens(x)
    ensures SectionsFound(ls + [x], m)
    ensures forall s :: FirstHeader(ls + [x], s) == FirstHeader(ls, s)
  {
    forall s ensures HeaderCounts(ls + [x], s) <==> HeaderCounts(ls, s)
             ensures FirstHeader(ls + [x], s) == FirstHeader(ls, s)
    {
      HeaderCountsStep(ls, x, s);
      FirstHeaderStep(ls, x, s);
    }
  }

  lemma InertStep(ls: seq<Row>, x: Row, m: IniData, rec: Section)
    requires Reading(ls, m, rec) && !Opens(x) && !HasKey(x)
    ensures Reading(ls + [x], m, rec)
  {
    MapStep(ls, x, m);
    NodesStep(ls, x, rec.keys);
    ShapeStep(ls, x);
    RunAtStep(ls, x);
    SectionsStep(ls, x, m);
    forall s, k ensures LineOf(m, rec, s, k) == BoundLine(ls + [x], s, k) { BoundLineStep(ls, x, s, k); }
  }

  lemma KeyLine(ls: seq<Row>, x: Row, m: IniData, rec: Section, s: string, k: string)
    requires Reading(ls, m, rec) && !Opens(x) && HasKey(x)
    ensures LineOf(m, rec.SetValue(KeyOf(x), ValueOf(x), |ls| + 1), s, k) == BoundLine(ls + [x], s, k)
  {
    ShapeStep(ls, x);
    BoundLineStep(ls, x, s, k);
    assert LineOf(m, rec, s, k) == BoundLine(ls, s, k);
  }

  lemma KeyRuns(ls: seq<Row>, x: Row, m: IniData, rec: Section)
    requires Reading(ls, m, rec) && !Opens(x) && HasKey(x)
    ensures RunsApart(ls + [x], m, rec.SetValue(KeyOf(x), ValueOf(x), |ls| + 1))
  {
    ShapeStep(ls, x);
    RunAtStep(ls, x);
    RunAtStep(ls + [x], Plain(None));
    assert forall s, k :: LineIn(m, s, k) != -1 ==> 1 <= LineIn(m, s, k) <= |ls|;
  }

  lemma NodesSet(ls: seq<Row>, x: Row, rec: Section)
    requires NodesRead(ls, rec.keys) && HasKey(x)
    ensures NodesRead(ls + [x], rec.SetValue(KeyOf(x), ValueOf(x), |ls| + 1).keys)
  {
    NodesStep(ls, x, rec.keys);
    assert NodeRead(ls + [x], KeyOf(x), KeyValueNode(ValueOf(x), |ls| + 1));
  }

  lemma KeyRecord(ls: seq<Row>, x: Row, m: IniData, rec: Section)
    requires RecordFound(ls, rec, m) && SectionsFound(ls, m) && !Opens(x) && HasKey(x)
    ensures RecordFound(ls + [x], rec.SetValue(KeyOf(x), ValueOf(x), |ls| + 1), m)
  {
    NodesSet(ls, x, rec);
    ShapeStep(ls, x);
    SectionsStep(ls, x, m);
  }

  lemma KeyStep(ls: seq<Row>, x: Row, m: IniData, rec: Section)
    requires Reading(ls, m, rec) && !Opens(x) && HasKey(x)
    ensures Reading(ls + [x], m, rec.SetValue(KeyOf(x), ValueOf(x), |ls| + 1))
  {
    MapStep(ls, x, m);
    SectionsStep(ls, x, m);
    KeyRecord(ls, x, m, rec);
    KeyRuns(ls, x, m, rec);
    var rec' := rec.SetValue(KeyOf(x), ValueOf(x), |ls| + 1);
    forall s, k ensures LineOf(m, rec', s, k) == BoundLine(ls + [x], s, k) { KeyLine(ls, x, m, rec, s, k); }
  }

  /** An unclosed `[` line commits the record and goes on filling it. */
  lemma UnclosedStep(ls: seq<Row>, x: Row, m: IniData, rec: Section)
    requires Reading(ls, m, rec) && Opens(x) && !Closed(x)
    ensures Reading(ls + [x], Commit(m, rec), rec)
  {
    CommitLines(ls, m, rec);
    MapStep(ls, x, Commit(m, rec));
    NodesStep(ls, x, rec.keys);
    ShapeStep(ls, x);
    CommittedSections(ls, x, m, rec);
    CommittedRuns(ls, x, m, rec);
    forall s, k ensures LineOf(Commit(m, rec), rec, s, k) == BoundLine(ls + [x], s, k) {
      BoundLineStep(ls, x, s, k);
    }
  }

  /** The record a closed `[` line starts; the line may also give a key. */
  function NewRecord(x: Row, n: int): Section
    requires Closed(x)
  {
    var rec := Section(x.name, n, map[]);
    if HasKey(x) then rec.SetValue(KeyOf(x), ValueOf(x), n) else rec
  }

  lemma ClosedRecord(ls: seq<Row>, x: Row, m: IniData, rec: Section)
    requires Reading(ls, m, rec) && Closed(x)
    ensures RecordFound(ls + [x], NewRecord(x, |ls| + 1), Commit(m, rec))
  {
    ShapeStep(ls, x);
    CommittedSections(ls, x, m, rec);
    FirstHeaderStep(ls, x, x.name);
  }

  lemma ClosedRuns(ls: seq<Row>, x: Row, m: IniData, rec: Section)
    requires Reading(ls, m, rec) && Closed(x)
    ensures RunsApart(ls + [x], Commit(m, rec), NewRecord(x, |ls| + 1))
  {
    CommittedRuns(ls, x, m, rec);
    RunAtStep(ls + [x], Plain(None));
  }

  /** A closed `[` line commits the record and starts a new one. */
  lemma ClosedStep(ls: seq<Row>, x: Row, m: IniData, rec: Section)
    requires Reading(ls, m, rec) && Closed(x)
    ensures Reading(ls + [x], Commit(m, rec), NewRecord(x, |ls| + 1))
  {
    CommitLines(ls, m, rec);
    MapStep(ls, x, Commit(m, rec));
    CommittedSections(ls, x, m, rec);
    ClosedRecord(ls, x, m, rec);
    ClosedRuns(ls, x, m, rec);
    forall s, k ensures LineOf(Commit(m, rec), NewRecord(x, |ls| + 1), s, k) == BoundLine(ls + [x], s, k) {
      ClosedLine(ls, x, m, rec, s, k);
    }
  }

  lemma ClosedLine(ls: seq<Row>, x: Row, m: IniData, rec: Section, s: string, k: string)
    requires Reading(ls, m, rec) && Closed(x)
    ensures LineOf(Commit(m, rec), NewRecord(x, |ls| + 1), s, k) == BoundLine(ls + [x], s, k)
  {
    CommitLine(ls, m, rec, s, k);
    ShapeStep(ls, x);
    BoundLineStep(ls, x, s, k);
    BoundRunStep(ls, x, s, k);
    assert LineOf(m, rec, s, k) == BoundLine(ls, s, k);
  }

  lemma BoundRunStep(ls: seq<Row>, x: Row, s: string, k: string)
    requires Opens(x)
    ensures BoundLine(ls, s, k) != -1 ==> RunAt(ls, BoundLine(ls, s, k)) < Runs(ls + [x])
  {
    ShapeStep(ls, x);
    assert ls[..|ls|] == ls;
    if BoundLine(ls, s, k) != -1 { RunsMonotone(ls, BoundLine(ls, s, k), |ls|); }
  }

  lemma CommittedRuns(ls: seq<Row>, x: Row, m: IniData, rec: Section)
    requires Reading(ls, m, rec) && Opens(x)
    ensures forall s, k :: LineIn(Commit(m, rec), s, k) != -1 ==>
              RunAt(ls + [x], LineIn(Commit(m, rec), s, k)) < Runs(ls + [x])
    ensures forall k :: rec.GetLine(k) != -1 ==> LineIn(Commit(m, rec), rec.name, k) != -1
  {
    CommitLines(ls, m, rec);
    RunAtStep(ls, x);
    forall s, k | LineIn(Commit(m, rec), s, k) != -1
      ensures RunAt(ls + [x], LineIn(Commit(m, rec), s, k)) < Runs(ls + [x])
    {
      BoundRunStep(ls, x, s, k);
    }
  }

  lemma CommittedSections(ls: seq<Row>, x: Row, m: IniData, rec: Section)
    requires Reading(ls, m, rec) && Opens(x)
    ensures SectionsFound(ls + [x], Commit(m, rec))
    ensures rec.name != "" ==> rec.name in Commit(m, rec)
    ensures forall s :: FirstHeader(ls, s) != -1 && s != "" ==> s in Commit(m, rec)
  {
    var m' := Commit(m, rec);
    forall s ensures HeaderCounts(ls + [x], s) <==> s != "" && FirstHeader(ls, s) != -1
             ensures FirstHeader(ls, s) != -1 ==> FirstHeader(ls + [x], s) == FirstHeader(ls, s)
    {
      HeaderCountsStep(ls, x, s);
      FirstHeaderStep(ls, x, s);
    }
    forall s | FirstHeader(ls, s) != -1 && s != "" ensures s in m' {
      HeaderSeen(ls, s);
    }
  }

  /** A named header is in force or already followed by a `[` line. */
  lemma {:induction false} HeaderSeen(ls: seq<Row>, s: string)
    ensures FirstHeader(ls, s) != -1 && s != "" ==> HeaderCounts(ls, s) || SectionAfter(ls) == s
  {
    if ls != [] {
      HeaderSeen(Init(ls), s);
      assert ls == Init(ls) + [Last(ls)];
      HeaderCountsStep(Init(ls), Last(ls), s);
      FirstHeaderStep(Init(ls), Last(ls), s);
      ShapeStep(Init(ls), Last(ls));
    }
  }

  // ------------------------------------------------- the whole file

  /** The rows of the text among the first `n` lines the loop sees. */
  ghost function RowsUpTo(t: string, n: nat): seq<Row> {
    var ls := Lines(t);
    if n <= |ls| then Rows(ls[..n]) else Rows(ls)
  }

  lemma RowsSnoc(ls: seq<string>, n: nat)
    requires n < |ls|
    ensures Rows(ls[..n + 1]) == Rows(ls[..n]) + [Read(ls[n])]
  {
    assert ls[..n + 1] == ls[..n] + [ls[n]];
  }

  lemma RowsUpToStep(t: string, n: nat)
    requires n < |ParsedLines(t)|
    ensures |RowsUpTo(t, n)| == n
    ensures RowsUpTo(t, n + 1) == RowsUpTo(t, n) + [Read(ParsedLines(t)[n])]
            || (RowsUpTo(t, n + 1) == RowsUpTo(t, n) && ParsedLines(t)[n] == "")
  {
    var ls := Lines(t);
    if n < |ls| {
      RowsSnoc(ls, n);
    } else {
      assert ls[..n] == ls;
    }
  }

  lemma AllRows(t: string)
    ensures RowsUpTo(t, 0) == [] && RowsUpTo(t, |ParsedLines(t)|) == Rows(Lines(t))
  {
    assert Lines(t)[..|Lines(t)|] == Lines(t);
  }

  lemma {:induction false} NothingReadYet()
    ensures Reading([], map[], Section("", -1, map[]))
  {
  }

  /** What is committed when the file ends. */
  lemma LastCommit(ls: seq<Row>, m: IniData, rec: Section)
    requires Reading(ls, m, rec)
    ensures Parsed(ls, if rec.keys != map[] then AddSection(m, rec.(line := -1)) else m)
  {
    var rec' := rec.(line := -1);
    var m' := if rec.keys != map[] then AddSection(m, rec') else m;
    CommitLines(ls, m, rec');
    forall s, k ensures LineIn(m', s, k) == BoundLine(ls, s, k) {
      assert LineOf(m, rec', s, k) == LineOf(m, rec, s, k);
    }
    forall s ensures s in m' <==> Known(ls, s) { KnownIsCommitted(ls, m, rec, m', s); }
  }

  lemma KnownIsCommitted(ls: seq<Row>, m: IniData, rec: Section, m': IniData, s: string)
    requires Reading(ls, m, rec)
    requires m' == if rec.keys != map[] then AddSection(m, rec.(line := -1)) else m
    requires MapRead(ls, m') && forall k :: LineIn(m', s, k) == BoundLine(ls, s, k)
    ensures s in m' <==> Known(ls, s)
  {
    var e := LastBound(ls, s, |ls|);
    if e != -1 { assert LineIn(m', s, KeyOf(ls[e - 1])) == e; }
    if s in m' && m'[s].keys != map[] {
      var k :| k in m'[s].keys;
      assert LineIn(m', s, k) == BoundLine(ls, s, k);
      KnownWhenBound(ls, s, k);
    }
  }

  /** What a caller reads out of the map. */
  function ValueIn(m: IniData, s: string, k: string): Option<string> {
    if s in m && k in m[s].keys then Some(m[s].keys[k].value) else None
  }

  /** The map answers every question as the reference reading does. */
  lemma ParsedAnswers(ls: seq<Row>, m: IniData, s: string, k: string)
    requires Parsed(ls, m)
    ensures ValueIn(m, s, k) == Get(ls, s, k)
  {
    assert LineIn(m, s, k) == BoundLine(ls, s, k);
    if s in m && k in m[s].keys { assert NodeRead(ls, k, m[s].keys[k]); }
  }

  /** What `modify` did, as a caller sees it in the maps `parse` built before
      and after. */
  lemma ModifyThenParse(t: string, before: IniData, after: IniData, s: string, k: string, v: string)
    requires PlainSection(s) && PlainKey(k) && NoNewline(v)
    requires Parsed(Rows(Lines(t)), before) && Parsed(Rows(Lines(ModifiedText(t, s, k, v))), after)
    ensures ValueIn(after, s, k) == Some(Strip(v))
    ensures forall s', k' :: (s', k') != (s, k) ==> ValueIn(after, s', k') == ValueIn(before, s', k')
  {
    IniLens.TextLens(t, s, k, v, v);
    ParsedAnswers(Rows(Lines(ModifiedText(t, s, k, v))), after, s, k);
    forall s', k' | (s', k') != (s, k) ensures ValueIn(after, s', k') == ValueIn(before, s', k') {
      ParsedAnswers(Rows(Lines(t)), before, s', k');
      ParsedAnswers(Rows(Lines(ModifiedText(t, s, k, v))), after, s', k');
    }
  }

  /** `getEndSection` scans the keys of a section for the greatest line. */
  method GetEndSection(sec: Section) returns (line: int)
    ensures sec.keys == map[] && sec.name != "" ==> line == sec.line
    ensures sec.keys != map[] || sec.name == "" ==>
              && line >= -1
              && (forall k :: k in sec.keys ==> sec.keys[k].lineNumber <= line)
              && (line == -1 || exists k :: k in sec.keys && sec.keys[k].lineNumber == line)
  {
    line := -1;
    if sec.keys == map[] && sec.name != "" { return sec.line; }
    var left := sec.keys.Keys;
    while left != {}
      invariant left <= sec.keys.Keys && line >= -1
      invariant forall k :: k in sec.keys.Keys - left ==> sec.keys[k].lineNumber <= line
      invariant line == -1 || exists k :: k in sec.keys && sec.keys[k].lineNumber == line
    {
      var k :| k in left;
      if sec.keys[k].lineNumber > line { line := sec.keys[k].lineNumber; }
      left := left - {k};
    }
  }

  /** A key of the map sits at the line that binds it, and its section is known. */
  lemma KeyIsBound(ls: seq<Row>, m: IniData, s: string, k: string)
    requires Parsed(ls, m) && s in m && k in m[s].keys
    ensures m[s].keys[k].lineNumber == BoundLine(ls, s, k) >= 1
    ensures 1 <= m[s].keys[k].lineNumber <= LastBound(ls, s, |ls|)
  {
    assert NodeRead(ls, k, m[s].keys[k]);
    assert LineIn(m, s, k) == BoundLine(ls, s, k);
    KnownWhenBound(ls, s, k);
  }

  lemma EndIsKey(ls: seq<Row>, m: IniData, s: string)
    requires Parsed(ls, m) && s in m && LastBound(ls, s, |ls|) != -1
    ensures exists k :: k in m[s].keys && m[s].keys[k].lineNumber == LastBound(ls, s, |ls|)
  {
    var e := LastBound(ls, s, |ls|);
    assert LineIn(m, s, KeyOf(ls[e - 1])) == e;
  }

  lemma GreatestLineIsEnd(ls: seq<Row>, m: IniData, s: string, line: int)
    requires Parsed(ls, m) && s in m && m[s].keys != map[] && line >= -1
    requires forall k :: k in m[s].keys ==> m[s].keys[k].lineNumber <= line
    requires line == -1 || exists k :: k in m[s].keys && m[s].keys[k].lineNumber == line
    ensures line == EndLine(ls, s)
  {
    var k0 :| k0 in m[s].keys;
    KeyIsBound(ls, m, s, k0);
    var k :| k in m[s].keys && m[s].keys[k].lineNumber == line;
    KeyIsBound(ls, m, s, k);
    EndIsKey(ls, m, s);
  }

  lemma BareSectionEnd(ls: seq<Row>, m: IniData, s: string)
    requires Parsed(ls, m) && s in m && m[s].keys == map[]
    ensures s != "" && m[s].line == EndLine(ls, s)
  {
    assert forall e :: BindsHere(ls, s, e) ==> LineIn(m, s, KeyOf(ls[e - 1])) == e;
  }

  /** What one row does to the sections committed and the record being filled. */
  function Advanced(m: IniData, rec: Section, x: Row, n: int): (IniData, Section) {
    if Closed(x) then (Commit(m, rec), NewRecord(x, n))
    else if Opens(x) then (Commit(m, rec), rec)
    else if HasKey(x) then (m, rec.SetValue(KeyOf(x), ValueOf(x), n))
    else (m, rec)
  }

  lemma AdvancedReads(ls: seq<Row>, x: Row, m: IniData, rec: Section)
    requires Reading(ls, m, rec)
    ensures var next := Advanced(m, rec, x, |ls| + 1); Reading(ls + [x], next.0, next.1)
  {
    if Closed(x) {
      ClosedStep(ls, x, m, rec);
    } else if Opens(x) {
      UnclosedStep(ls, x, m, rec);
    } else if HasKey(x) {
      KeyStep(ls, x, m, rec);
    } else {
      InertStep(ls, x, m, rec);
    }
  }

  lemma LineReads(t: string, n: nat, m: IniData, rec: Section)
    requires n < |ParsedLines(t)| && Reading(RowsUpTo(t, n), m, rec)
    ensures var next := Advanced(m, rec, Read(ParsedLines(t)[n]), n + 1); Reading(RowsUpTo(t, n + 1), next.0, next.1)
  {
    RowsUpToStep(t, n);
    AdvancedReads(RowsUpTo(t, n), Read(ParsedLines(t)[n]), m, rec);
  }

  /** One pass of the `parse` loop, over line `n` of the file. */
  method ParseLine(data: string, n: int, m: IniData, rec: Section) returns (m': IniData, rec': Section)
    ensures (m', rec') == Advanced(m, rec, Read(data), n)
  {
    m', rec' := m, rec;
    var d := Strip(data);
    if !Active(data) { return; }
    if d[0] == '[' {
      if rec.keys != map[] || rec.name != "" { m' := AddSection(m, rec); }
      var last := Find(d, ']');
      if last == -1 { return; }
      rec' := Section(d[1..last], n, map[]);
    }
    var pos := Find(d, '=');
    if pos != -1 { rec' := rec'.SetValue(d[..pos], d[pos + 1..], n); }
  }

  class Manager {
    var file: string
    var iniData: IniData
    var sumOfLines: int

    constructor (text: string)
      ensures file == text && Parsed(Rows(Lines(file)), iniData)
    {
      file, iniData, sumOfLines := text, map[], 1;
      new;
      Parse();
    }

    method Parse()
      modifies this
      ensures file == old(file)
      ensures Parsed(Rows(Lines(file)), iniData)
    {
      iniData := map[];
      var rec := Section("", -1, map[]);
      var input := ParsedLines(file);
      sumOfLines := 1;
      NothingReadYet();
      AllRows(file);
      while sumOfLines <= |input|
        invariant file == old(file) && 1 <= sumOfLines <= |input| + 1
        invariant Reading(RowsUpTo(file, sumOfLines - 1), iniData, rec)
        decreases |input| - sumOfLines
      {
        LineReads(file, sumOfLines - 1, iniData, rec);
        iniData, rec := ParseLine(input[sumOfLines - 1], sumOfLines, iniData, rec);
        sumOfLines := sumOfLines + 1;
      }
      LastCommit(Rows(Lines(file)), iniData, rec);
      if rec.keys != map[] { iniData := AddSection(iniData, rec.(line := -1)); }
    }

    /** `modify` with the default empty comment. */
    method Modify(s: string, k: string, v: string) returns (ok: bool)
      modifies this
      ensures ok <==> k != "" && v != ""
      ensures file == if ok then ModifiedText(old(file), s, k, v) else old(file)
      ensures Parsed(Rows(Lines(file)), iniData)
    {
      Parse();
      if k == "" || v == "" { return false; }
      var kv := Assignment(k, v);
      var input := Lines(file);
      ghost var rows := Rows(input);
      var output: seq<string> := [];
      var mark := -1;
      if s in iniData {
        mark := iniData[s].GetLine(k);
        assert mark == LineIn(iniData, s, k) == BoundLine(rows, s, k);
      }
      if s in iniData && mark == -1 {
        mark := GetEndSection(iniData[s]);
        if iniData[s].keys == map[] { BareSectionEnd(rows, iniData, s); }
        else { GreatestLineIsEnd(rows, iniData, s, mark); }
        output := InsertAfter(input, mark, kv);
      } else if mark <= 0 {
        output := WriteUnknown(input, s, kv);
      } else {
        output := ReplaceLine(input, mark, kv);
      }
      assert output == Modified(input, s, k, v);
      file := Unlines(output);
      Parse();
      return true;
    }

    /** The section is not in the file: write it at the head or the end. */
    method WriteUnknown(input: seq<string>, s: string, kv: string) returns (output: seq<string>)
      requires Parsed(Rows(input), iniData)
      ensures output == if s == "" then [kv] + input else input + NewHeader(input, s) + [kv]
    {
      if s == "" { return [kv] + input; }
      output := input;
      if s != "" && '[' !in s && ']' !in s && '=' !in s {
        if iniData == map[] {
          assert NothingKnown(Rows(input));
        } else {
          var t :| t in iniData;
          assert Known(Rows(input), t);
          output := output + ["", ""];
        }
        output := output + [Header(s)];
      }
      output := output + [kv];
    }
  }

  /** Copies the lines, writing `kv` once line `mark` is past. */
  method InsertAfter(input: seq<string>, mark: int, kv: string) returns (output: seq<string>)
    requires 0 <= mark <= |input|
    ensures output == input[..mark] + [kv] + input[mark..]
  {
    output := [];
    var written := false;
    var n := 0;
    while n < |input|
      invariant 0 <= n <= |input|
      invariant written <==> n > mark
      invariant output == if n <= mark then input[..n] else input[..mark] + [kv] + input[mark..n]
    {
      n := n + 1;
      if n == mark + 1 {
        written := true;
        output := output + [kv];
      }
      output := output + [input[n - 1]];
    }
    if !written { output := output + [kv]; }
  }

  /** Copies the lines, writing `kv` in place of line `mark`. */
  method ReplaceLine(input: seq<string>, mark: int, kv: string) returns (output: seq<string>)
    requires 1 <= mark <= |input|
    ensures output == input[mark - 1 := kv]
  {
    output := [];
    var n := 0;
    while n < |input|
      invariant 0 <= n <= |input|
      invariant output == input[mark - 1 := kv][..n]
    {
      n := n + 1;
      output := output + [if n == mark then kv else input[n - 1]];
    }
  }
}
