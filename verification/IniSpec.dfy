/** A reference reading of an INI file that never builds a map: where a
    binding comes from is said by positions in the text alone.  Line numbers
    count from 1 and -1 means "none", as in mng/hdr/inicpp.h. */
module IniSpec {
  import opened Options
  import opened IniLines

  function Last(ls: seq<Row>): Row
    requires ls != []
  { ls[|ls| - 1] }

  function Init(ls: seq<Row>): seq<Row>
    requires ls != []
  { ls[..|ls| - 1] }

  /** The section in force after the given lines. */
  function SectionAfter(ls: seq<Row>): string {
    if ls == [] then ""
    else if Closed(Last(ls)) then Last(ls).name
    else SectionAfter(Init(ls))
  }

  /** How many `[` lines, closed or not, the given lines hold: the number of
      the run of keys the last line belongs to. */
  function Runs(ls: seq<Row>): nat {
    if ls == [] then 0 else Runs(Init(ls)) + if Opens(Last(ls)) then 1 else 0
  }

  /** The run line `i` belongs to. */
  function RunAt(ls: seq<Row>, i: int): nat { if 0 <= i <= |ls| then Runs(ls[..i]) else 0 }

  lemma ShapeStep(ls: seq<Row>, x: Row)
    ensures SectionAfter(ls + [x]) == if Closed(x) then x.name else SectionAfter(ls)
    ensures Runs(ls + [x]) == Runs(ls) + if Opens(x) then 1 else 0
  {
    assert Init(ls + [x]) == ls;
  }

  lemma RunAtStep(ls: seq<Row>, x: Row)
    ensures forall i :: 0 <= i <= |ls| ==> RunAt(ls + [x], i) == RunAt(ls, i)
    ensures RunAt(ls, |ls|) == Runs(ls)
  {
    assert ls[..|ls|] == ls;
    forall i | 0 <= i <= |ls| ensures RunAt(ls + [x], i) == RunAt(ls, i) {
      assert (ls + [x])[..i] == ls[..i];
    }
  }

  /** Line `i` assigns key `k` while section `s` is in force. */
  predicate Assigns(ls: seq<Row>, i: int, s: string, k: string) {
    1 <= i <= |ls| && HasKey(ls[i - 1]) && KeyOf(ls[i - 1]) == k && SectionAfter(ls[..i]) == s
  }

  /** The line whose value the file gives to (`s`, `k`). */
  function BoundLine(ls: seq<Row>, s: string, k: string): (b: int)
    ensures b == -1 || 1 <= b <= |ls|
  {
    if ls == [] then -1
    else
      var p := BoundLine(Init(ls), s, k);
      if Assigns(ls, |ls|, s, k) && (p == -1 || RunAt(ls, p) == Runs(ls)) then |ls| else p
  }

  /** One more line, whatever comes before it. */
  lemma BoundLineStep(ls: seq<Row>, x: Row, s: string, k: string)
    ensures var p := BoundLine(ls, s, k);
            BoundLine(ls + [x], s, k) ==
            if HasKey(x) && KeyOf(x) == k && SectionAfter(ls + [x]) == s
               && (p == -1 || RunAt(ls, p) == Runs(ls + [x]))
            then |ls| + 1 else p
  {
    var ys := ls + [x];
    assert Init(ys) == ls && ys[..|ys|] == ys;
    var p := BoundLine(ls, s, k);
    if p != -1 { assert ys[..p] == ls[..p]; }
  }

  function Get(ls: seq<Row>, s: string, k: string): Option<string> {
    var b := BoundLine(ls, s, k);
    if b == -1 then None
    else BoundLineAssigns(ls, s, k); Some(ValueOf(ls[b - 1]))
  }

  lemma {:induction false} BoundLineAssigns(ls: seq<Row>, s: string, k: string)
    ensures var b := BoundLine(ls, s, k); b != -1 ==> Assigns(ls, b, s, k)
  {
    if ls != [] {
      BoundLineAssigns(Init(ls), s, k);
      var p := BoundLine(Init(ls), s, k);
      if p != -1 { assert Init(ls)[..p] == ls[..p]; }
    }
  }

  lemma {:induction false} RunsMonotone(ls: seq<Row>, i: nat, j: nat)
    requires i <= j <= |ls|
    ensures Runs(ls[..i]) <= Runs(ls[..j])
    decreases j - i
  {
    if i < j {
      assert Init(ls[..j]) == ls[..j - 1];
      RunsMonotone(ls, i, j - 1);
    }
  }

  /** (`s`, `k`) takes its value from the last `k` line of the earliest run
      of `s` that has one. */
  ghost predicate Wins(ls: seq<Row>, b: int, s: string, k: string) {
    && Assigns(ls, b, s, k)
    && forall i :: Assigns(ls, i, s, k) ==>
         RunAt(ls, b) < RunAt(ls, i) || (RunAt(ls, b) == RunAt(ls, i) && i <= b)
  }

  lemma {:induction false} BoundLineWins(ls: seq<Row>, s: string, k: string)
    ensures var b := BoundLine(ls, s, k);
            if b == -1 then forall i :: !Assigns(ls, i, s, k) else Wins(ls, b, s, k)
  {
    if ls != [] {
      var init := Init(ls);
      BoundLineWins(init, s, k);
      forall i | 1 <= i < |ls|
        ensures Assigns(ls, i, s, k) <==> Assigns(init, i, s, k)
        ensures init[..i] == ls[..i]
      {
        assert init[..i] == ls[..i];
      }
      assert ls[..|ls|] == ls;
      forall i | 1 <= i <= |ls|
        ensures Runs(ls[..i]) <= Runs(ls)
      {
        RunsMonotone(ls, i, |ls|);
      }
      var p := BoundLine(init, s, k);
      if p != -1 { assert init[..p] == ls[..p]; }
    }
  }

  // ------------------------------------------------- what single lines do

  /** A `[` line keeps what was bound before it, whatever follows. */
  lemma {:induction false} OpeningRowKeeps(ls: seq<Row>, x: Row, more: seq<Row>, s: string, k: string)
    requires Opens(x) && BoundLine(ls, s, k) != -1
    ensures BoundLine(ls + [x] + more, s, k) == BoundLine(ls, s, k) && Runs(ls + [x] + more) > Runs(ls)
    decreases |more|
  {
    var b := BoundLine(ls, s, k);
    assert ls[..|ls|] == ls;
    RunsMonotone(ls, b, |ls|);
    if more == [] {
      assert ls + [x] + more == ls + [x];
      ShapeStep(ls, x);
      BoundLineStep(ls, x, s, k);
    } else {
      var front, y := more[..|more| - 1], more[|more| - 1];
      assert ls + [x] + more == (ls + [x] + front) + [y];
      OpeningRowKeeps(ls, x, front, s, k);
      ShapeStep(ls + [x] + front, y);
      BoundLineStep(ls + [x] + front, y, s, k);
      assert (ls + [x] + front)[..b] == ls[..b];
    }
  }

  /** So a line whose first character is `[`, with or without `]`, fixes every
      value read so far; and without `]` it does nothing else. */
  lemma BracketLineFixes(ls: seq<string>, u: string, more: seq<string>, s: string, k: string)
    requires StartsWith(u, '[')
    ensures Get(Rows(ls), s, k).Some? ==> Get(Rows(ls + [u] + more), s, k) == Get(Rows(ls), s, k)
    ensures ']' !in u ==> Get(Rows(ls + [u]), s, k) == Get(Rows(ls), s, k) && SectionAfter(Rows(ls + [u])) == SectionAfter(Rows(ls))
  {
    LineKinds(u);
    assert Rows(ls + [u] + more) == Rows(ls) + [Read(u)] + Rows(more);
    assert Rows(ls + [u]) == Rows(ls) + [Read(u)];
    OpeningRowFixes(Rows(ls), Read(u), Rows(more), s, k);
    if ']' !in u { UnclosedRowInert(Rows(ls), Read(u), s, k); }
  }

  lemma OpeningRowFixes(ls: seq<Row>, x: Row, more: seq<Row>, s: string, k: string)
    requires Opens(x)
    ensures Get(ls, s, k).Some? ==> Get(ls + [x] + more, s, k) == Get(ls, s, k)
  {
    BoundLineAssigns(ls, s, k);
    if BoundLine(ls, s, k) != -1 { OpeningRowKeeps(ls, x, more, s, k); }
  }

  lemma UnclosedRowInert(ls: seq<Row>, x: Row, s: string, k: string)
    requires x == Unclosed
    ensures Get(ls + [x], s, k) == Get(ls, s, k) && SectionAfter(ls + [x]) == SectionAfter(ls)
  {
    ShapeStep(ls, x);
    BoundLineStep(ls, x, s, k);
    BoundLineAssigns(ls, s, k);
  }

  /** Where a line goes when one is put in after the first `n`. */
  function Moved(b: int, n: nat): int { if b <= n then b else b + 1 }

  lemma {:induction false} InertRowMoves(ls: seq<Row>, x: Row, more: seq<Row>, s: string, k: string)
    requires x == Plain(None)
    ensures var was, now := ls + more, ls + [x] + more;
            && SectionAfter(now) == SectionAfter(was) && Runs(now) == Runs(was)
            && BoundLine(now, s, k) == Moved(BoundLine(was, s, k), |ls|)
            && RunAt(now, BoundLine(now, s, k)) == RunAt(was, BoundLine(was, s, k))
    decreases |more|
  {
    if more == [] {
      assert ls + more == ls && ls + [x] + more == ls + [x];
      ShapeStep(ls, x);
      BoundLineStep(ls, x, s, k);
      RunAtStep(ls, x);
    } else {
      var front, y := more[..|more| - 1], more[|more| - 1];
      var was, now := ls + front, ls + [x] + front;
      assert ls + more == was + [y] && ls + [x] + more == now + [y];
      InertRowMoves(ls, x, front, s, k);
      ShapeStep(was, y);
      ShapeStep(now, y);
      BoundLineStep(was, y, s, k);
      BoundLineStep(now, y, s, k);
      RunAtStep(was, y);
      RunAtStep(now, y);
      RunAtEnd(was + [y]);
      RunAtEnd(now + [y]);
    }
  }

  lemma RunAtEnd(ls: seq<Row>)
    ensures RunAt(ls, |ls|) == Runs(ls)
  {
    assert ls[..|ls|] == ls;
  }

  /** A comment, or a line with neither `[` in front nor `=` in it, can be left
      out anywhere without changing what any key reads. */
  lemma InertLineIrrelevant(ls: seq<string>, u: string, more: seq<string>, s: string, k: string)
    requires StartsWith(u, ';') || StartsWith(u, '#') || (!StartsWith(u, '[') && '=' !in u)
    ensures Get(Rows(ls + [u] + more), s, k) == Get(Rows(ls + more), s, k)
  {
    LineKinds(u);
    assert Rows(ls + [u] + more) == Rows(ls) + [Read(u)] + Rows(more);
    assert Rows(ls + more) == Rows(ls) + Rows(more);
    InertRowGets(Rows(ls), Read(u), Rows(more), s, k);
  }

  lemma InertRowGets(ls: seq<Row>, x: Row, more: seq<Row>, s: string, k: string)
    requires x == Plain(None)
    ensures Get(ls + [x] + more, s, k) == Get(ls + more, s, k)
  {
    InertRowMoves(ls, x, more, s, k);
    BoundLineAssigns(ls + more, s, k);
    BoundLineAssigns(ls + [x] + more, s, k);
  }

  /** First line that names section `s`. */
  function FirstHeader(ls: seq<Row>, s: string): (h: int)
    ensures h == -1 || 1 <= h <= |ls|
  {
    if ls == [] then -1
    else
      var h := FirstHeader(Init(ls), s);
      if h != -1 then h
      else if Closed(Last(ls)) && Last(ls).name == s then |ls| else -1
  }

  /** Line `i` is the one its own key in section `s` is bound to. */
  predicate BindsHere(ls: seq<Row>, s: string, i: int) {
    1 <= i <= |ls| && HasKey(ls[i - 1]) && BoundLine(ls, s, KeyOf(ls[i - 1])) == i
  }

  /** Greatest line up to `n` that some key of section `s` is bound to. */
  function LastBound(ls: seq<Row>, s: string, n: nat): (e: int)
    requires n <= |ls|
    ensures e == -1 || (1 <= e <= n && BindsHere(ls, s, e))
    ensures forall i :: e < i <= n ==> !BindsHere(ls, s, i)
  {
    if n == 0 then -1
    else if BindsHere(ls, s, n) then n
    else LastBound(ls, s, n - 1)
  }

  /** A header line counts once another `[` line follows it. */
  predicate HeaderCounts(ls: seq<Row>, s: string) {
    var h := FirstHeader(ls, s);
    s != "" && h != -1 && RunAt(ls, h) < Runs(ls)
  }

  /** The section is known after reading the file: it binds a key, or it is
      named and followed by another `[` line. */
  predicate Known(ls: seq<Row>, s: string) {
    LastBound(ls, s, |ls|) != -1 || HeaderCounts(ls, s)
  }

  /** The line a new key of section `s` is written after. */
  function EndLine(ls: seq<Row>, s: string): (e: int)
    requires Known(ls, s)
    ensures 1 <= e <= |ls|
  {
    var e := LastBound(ls, s, |ls|);
    if e != -1 then e else FirstHeader(ls, s)
  }

  ghost predicate NothingKnown(ls: seq<Row>) { forall s :: !Known(ls, s) }

  predicate Holds(s: string) { s != "" && '[' !in s && ']' !in s && '=' !in s }

  /** The lines after `modify(s, k, v)` with the default empty comment. */
  ghost function Modified(ls: seq<string>, s: string, k: string, v: string): seq<string> {
    var kv := Assignment(k, v);
    var rs := Rows(ls);
    if Known(rs, s) then
      var b := BoundLine(rs, s, k);
      if b != -1 then ls[b - 1 := kv]
      else var e := EndLine(rs, s); ls[..e] + [kv] + ls[e..]
    else if s == "" then [kv] + ls
    else ls + NewHeader(ls, s) + [kv]
  }

  ghost function NewHeader(ls: seq<string>, s: string): seq<string> {
    if !Holds(s) then []
    else (if NothingKnown(Rows(ls)) then [] else ["", ""]) + [Header(s)]
  }

  /** The value a whole text gives to (`s`, `k`). */
  function Lookup(t: string, s: string, k: string): Option<string> { Get(Rows(Lines(t)), s, k) }

  ghost function ModifiedText(t: string, s: string, k: string, v: string): string {
    Unlines(Modified(Lines(t), s, k, v))
  }

  lemma KnownWhenBound(ls: seq<Row>, s: string, k: string)
    ensures BoundLine(ls, s, k) != -1 ==> BindsHere(ls, s, BoundLine(ls, s, k)) && Known(ls, s)
  {
    BoundLineAssigns(ls, s, k);
    var b := BoundLine(ls, s, k);
    if b != -1 {
      assert BindsHere(ls, s, b);
      assert LastBound(ls, s, |ls|) >= b;
    }
  }
}
