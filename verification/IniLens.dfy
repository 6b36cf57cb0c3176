/** `modify` and the reader form a lawful lens on arbitrary text: what was
    put is got back, nothing else moves, and the last put wins. */
module IniLens {
  import opened Options
  import opened IniLines
  import opened IniSpec

  // ------------------------------------------------- replacing a line

  /** Two lines the reader cannot tell apart except by the value. */
  predicate Alike(x: Row, y: Row) {
    && (Opens(x) <==> Opens(y))
    && (Closed(x) <==> Closed(y)) && (Closed(x) ==> x.name == y.name)
    && (HasKey(x) <==> HasKey(y)) && (HasKey(x) ==> KeyOf(x) == KeyOf(y))
  }

  lemma {:induction false} AlikeShape(xs: seq<Row>, ys: seq<Row>)
    requires |xs| == |ys| && forall i :: 0 <= i < |xs| ==> Alike(xs[i], ys[i])
    ensures SectionAfter(xs) == SectionAfter(ys) && Runs(xs) == Runs(ys)
  {
    if xs != [] { AlikeShape(Init(xs), Init(ys)); }
  }

  lemma {:induction false} AlikeBinds(xs: seq<Row>, ys: seq<Row>, s: string, k: string)
    requires |xs| == |ys| && forall i :: 0 <= i < |xs| ==> Alike(xs[i], ys[i])
    ensures BoundLine(xs, s, k) == BoundLine(ys, s, k)
  {
    if xs != [] {
      AlikeBinds(Init(xs), Init(ys), s, k);
      AlikeShape(xs, ys);
      assert xs[..|xs|] == xs && ys[..|ys|] == ys;
      var p := BoundLine(Init(xs), s, k);
      if p != -1 { AlikeShape(xs[..p], ys[..p]); }
    }
  }

  // ------------------------------------------------- inserting a line

  function Inserted<T>(ls: seq<T>, p: nat, kv: T): seq<T>
    requires p <= |ls|
  { ls[..p] + [kv] + ls[p..] }

  /** Where a line ends up once another is inserted after line `p`. */
  function Shift(b: int, p: nat): int { if b > p then b + 1 else b }

  /** `kv` reads as an assignment of `k`, and is put where `s` is in force. */
  predicate Fits(ls: seq<Row>, p: nat, kv: Row, s: string, k: string) {
    p <= |ls| && SectionAfter(ls[..p]) == s && HasKey(kv) && !Opens(kv) && KeyOf(kv) == k
  }

  lemma InsertedPrefix(ls: seq<Row>, p: nat, kv: Row, n: nat)
    requires p <= |ls| && n <= |ls|
    ensures n <= p ==> Inserted(ls, p, kv)[..n] == ls[..n]
    ensures Inserted(ls, p, kv)[..p + 1] == ls[..p] + [kv]
    ensures p < n ==> Inserted(ls, p, kv)[..n + 1] == Inserted(ls, p, kv)[..n] + [ls[n - 1]]
    ensures p < n ==> ls[..n] == ls[..n - 1] + [ls[n - 1]]
  {
  }

  lemma {:induction false} InsertedShape(ls: seq<Row>, p: nat, kv: Row, s: string, k: string, n: nat)
    requires Fits(ls, p, kv, s, k) && p <= n <= |ls|
    ensures SectionAfter(Inserted(ls, p, kv)[..n + 1]) == SectionAfter(ls[..n])
    ensures Runs(Inserted(ls, p, kv)[..n + 1]) == Runs(ls[..n])
    decreases n
  {
    InsertedPrefix(ls, p, kv, n);
    if n == p {
      ShapeStep(ls[..p], kv);
    } else {
      InsertedShape(ls, p, kv, s, k, n - 1);
      ShapeStep(ls[..n - 1], ls[n - 1]);
      ShapeStep(Inserted(ls, p, kv)[..n], ls[n - 1]);
    }
  }

  /** A line keeps its run when another is inserted. */
  lemma InsertedKeepsRun(ls: seq<Row>, p: nat, kv: Row, s: string, k: string, b: nat)
    requires Fits(ls, p, kv, s, k) && b <= |ls|
    ensures Runs(Inserted(ls, p, kv)[..Shift(b, p)]) == Runs(ls[..b])
  {
    if b <= p { InsertedPrefix(ls, p, kv, b); } else { InsertedShape(ls, p, kv, s, k, b); }
  }

  /** The run of a bound line, seen from before and after the insertion. */
  lemma InsertedRunAt(ls: seq<Row>, p: nat, kv: Row, s: string, k: string, n: nat, b: nat)
    requires Fits(ls, p, kv, s, k) && p <= n <= |ls| && 1 <= b <= n
    ensures RunAt(Inserted(ls, p, kv)[..n + 1], Shift(b, p)) == RunAt(ls[..n], b)
  {
    InsertedKeepsRun(ls, p, kv, s, k, b);
    assert ls[..n][..b] == ls[..b];
    assert Inserted(ls, p, kv)[..n + 1][..Shift(b, p)] == Inserted(ls, p, kv)[..Shift(b, p)];
  }

  lemma {:induction false} InsertedOthers(
    ls: seq<Row>, p: nat, kv: Row, s: string, k: string, n: nat, t: string, l: string)
    requires Fits(ls, p, kv, s, k) && p <= n <= |ls| && (t, l) != (s, k)
    ensures BoundLine(Inserted(ls, p, kv)[..n + 1], t, l) == Shift(BoundLine(ls[..n], t, l), p)
    decreases n
  {
    InsertedPrefix(ls, p, kv, n);
    if n == p {
      ShapeStep(ls[..p], kv);
      BoundLineStep(ls[..p], kv, t, l);
    } else {
      InsertedOthers(ls, p, kv, s, k, n - 1, t, l);
      InsertedOthersStep(ls, p, kv, s, k, n, t, l);
    }
  }

  /** The same line added to two texts that agree up to the shift. */
  lemma ShiftedStep(xs: seq<Row>, ys: seq<Row>, x: Row, p: nat, t: string, l: string)
    requires |ys| == |xs| + 1 && p <= |xs|
    requires SectionAfter(ys) == SectionAfter(xs) && Runs(ys) == Runs(xs)
    requires var b := BoundLine(xs, t, l);
             BoundLine(ys, t, l) == Shift(b, p) && (b != -1 ==> RunAt(ys, Shift(b, p)) == RunAt(xs, b))
    ensures BoundLine(ys + [x], t, l) == Shift(BoundLine(xs + [x], t, l), p)
  {
    ShapeStep(xs, x);
    ShapeStep(ys, x);
    BoundLineStep(xs, x, t, l);
    BoundLineStep(ys, x, t, l);
  }

  lemma InsertedOthersStep(
    ls: seq<Row>, p: nat, kv: Row, s: string, k: string, n: nat, t: string, l: string)
    requires Fits(ls, p, kv, s, k) && p < n <= |ls|
    requires BoundLine(Inserted(ls, p, kv)[..n], t, l) == Shift(BoundLine(ls[..n - 1], t, l), p)
    ensures BoundLine(Inserted(ls, p, kv)[..n + 1], t, l) == Shift(BoundLine(ls[..n], t, l), p)
  {
    InsertedPrefix(ls, p, kv, n);
    InsertedShape(ls, p, kv, s, k, n - 1);
    var b := BoundLine(ls[..n - 1], t, l);
    if b != -1 { InsertedRunAt(ls, p, kv, s, k, n - 1, b); }
    ShiftedStep(ls[..n - 1], Inserted(ls, p, kv)[..n], ls[n - 1], p, t, l);
  }

  /** A line that leaves the section in force as it is does so for all lines
      behind it. */
  lemma {:induction false} InsertedSection(ls: seq<Row>, p: nat, kv: Row, n: nat)
    requires p <= n <= |ls| && SectionAfter(ls[..p] + [kv]) == SectionAfter(ls[..p])
    ensures SectionAfter(Inserted(ls, p, kv)[..n + 1]) == SectionAfter(ls[..n])
    decreases n
  {
    InsertedPrefix(ls, p, kv, n);
    if n > p {
      InsertedSection(ls, p, kv, n - 1);
      ShapeStep(ls[..n - 1], ls[n - 1]);
      ShapeStep(Inserted(ls, p, kv)[..n], ls[n - 1]);
    }
  }

  /** The first line to assign (`s`, `k`) is the one it is bound to, as long as
      the lines behind it stay in their sections. */
  lemma {:induction false} InsertedBinds(ls: seq<Row>, p: nat, kv: Row, s: string, k: string, n: nat)
    requires p <= n <= |ls| && HasKey(kv) && KeyOf(kv) == k && SectionAfter(ls[..p] + [kv]) == s
    requires p == |ls| || SectionAfter(ls[..p]) == s
    requires forall i :: !Assigns(ls, i, s, k)
    ensures BoundLine(Inserted(ls, p, kv)[..n + 1], s, k) == p + 1
    decreases n
  {
    InsertedPrefix(ls, p, kv, n);
    if n == p {
      UnassignedPrefix(ls, s, k, p);
      BoundLineStep(ls[..p], kv, s, k);
    } else {
      InsertedBinds(ls, p, kv, s, k, n - 1);
      InsertedSection(ls, p, kv, n);
      BoundLineStep(Inserted(ls, p, kv)[..n], ls[n - 1], s, k);
      assert !Assigns(ls, n, s, k);
    }
  }

  lemma {:induction false} UnassignedPrefix(ls: seq<Row>, s: string, k: string, n: nat)
    requires n <= |ls| && forall i :: !Assigns(ls, i, s, k)
    ensures BoundLine(ls[..n], s, k) == -1
  {
    if n > 0 {
      UnassignedPrefix(ls, s, k, n - 1);
      assert ls[..n] == ls[..n - 1] + [ls[n - 1]];
      BoundLineStep(ls[..n - 1], ls[n - 1], s, k);
      assert !Assigns(ls, n, s, k);
    }
  }

  lemma InsertedGet(ls: seq<Row>, p: nat, kv: Row, s: string, k: string, t: string, l: string)
    requires Fits(ls, p, kv, s, k) && (t, l) != (s, k)
    ensures Get(Inserted(ls, p, kv), t, l) == Get(ls, t, l)
  {
    var ys := Inserted(ls, p, kv);
    assert ys[..|ls| + 1] == ys && ls[..|ls|] == ls;
    InsertedOthers(ls, p, kv, s, k, |ls|, t, l);
    var b := BoundLine(ls, t, l);
    if b != -1 { assert ys[Shift(b, p) - 1] == ls[b - 1]; }
  }

  lemma InsertedReading(ls: seq<Row>, p: nat, kv: Row, s: string, k: string)
    requires Fits(ls, p, kv, s, k) && BoundLine(ls, s, k) == -1
    ensures var ys := Inserted(ls, p, kv);
            && BoundLine(ys, s, k) == p + 1
            && forall t, l :: (t, l) != (s, k) ==> Get(ys, t, l) == Get(ls, t, l)
  {
    assert Inserted(ls, p, kv)[..|ls| + 1] == Inserted(ls, p, kv);
    BoundLineWins(ls, s, k);
    ShapeStep(ls[..p], kv);
    InsertedBinds(ls, p, kv, s, k, |ls|);
    forall t, l | (t, l) != (s, k) ensures Get(Inserted(ls, p, kv), t, l) == Get(ls, t, l) {
      InsertedGet(ls, p, kv, s, k, t, l);
    }
  }

  // ------------------------------------------------- appending lines

  lemma AppendedReading(ls: seq<Row>, x: Row, t: string, l: string)
    requires !HasKey(x)
    ensures BoundLine(ls + [x], t, l) == BoundLine(ls, t, l) && Get(ls + [x], t, l) == Get(ls, t, l)
  {
    BoundLineStep(ls, x, t, l);
    var b := BoundLine(ls, t, l);
    if b != -1 { assert (ls + [x])[b - 1] == ls[b - 1]; }
  }

  /** The rows of the lines written before the key of a new section. */
  lemma NewHeaderReading(rs: seq<Row>, blanks: bool, s: string, t: string, l: string)
    ensures var hs := if blanks then rs + [Plain(None)] + [Plain(None)] + [Named(s, None)] else rs + [Named(s, None)];
            && SectionAfter(hs) == s
            && BoundLine(hs, t, l) == BoundLine(rs, t, l)
            && Get(hs, t, l) == Get(rs, t, l)
  {
    var pre := if blanks then rs + [Plain(None)] + [Plain(None)] else rs;
    if blanks {
      AppendedReading(rs, Plain(None), t, l);
      AppendedReading(rs + [Plain(None)], Plain(None), t, l);
    }
    AppendedReading(pre, Named(s, None), t, l);
    ShapeStep(pre, Named(s, None));
  }

  /** A new section at the end of the file takes the key and nothing else. */
  lemma NewSectionReading(rs: seq<Row>, hs: seq<Row>, s: string, k: string, kv: Row)
    requires SectionAfter(hs) == s && BoundLine(hs, s, k) == -1
    requires forall t, l :: Get(hs, t, l) == Get(rs, t, l)
    requires HasKey(kv) && !Opens(kv) && KeyOf(kv) == k
    ensures BoundLine(hs + [kv], s, k) == |hs| + 1
    ensures forall t, l :: (t, l) != (s, k) ==> Get(hs + [kv], t, l) == Get(rs, t, l)
  {
    assert hs[..|hs|] == hs;
    InsertedReading(hs, |hs|, kv, s, k);
    assert Inserted(hs, |hs|, kv) == hs + [kv];
  }

  // ------------------------------------------------- the lens laws

  lemma {:induction false} FirstHeaderNames(ls: seq<Row>, s: string)
    ensures var h := FirstHeader(ls, s);
            h != -1 ==> Closed(ls[h - 1]) && ls[h - 1].name == s && SectionAfter(ls[..h]) == s
  {
    if ls != [] {
      FirstHeaderNames(Init(ls), s);
      var h := FirstHeader(Init(ls), s);
      if h != -1 { assert Init(ls)[..h] == ls[..h]; }
      assert ls[..|ls|] == ls;
    }
  }

  lemma EndLineInSection(ls: seq<Row>, s: string)
    requires Known(ls, s)
    ensures SectionAfter(ls[..EndLine(ls, s)]) == s
  {
    var e := LastBound(ls, s, |ls|);
    if e != -1 { BoundLineAssigns(ls, s, KeyOf(ls[e - 1])); } else { FirstHeaderNames(ls, s); }
  }

  lemma ReplacedReading(ls: seq<Row>, b: nat, kv: Row, s: string, k: string)
    requires BoundLine(ls, s, k) == b && !Opens(ls[b - 1])
    requires HasKey(kv) && !Opens(kv) && KeyOf(kv) == k
    ensures 1 <= b <= |ls|
    ensures var ys := ls[b - 1 := kv];
            && BoundLine(ys, s, k) == b
            && forall t, l :: (t, l) != (s, k) ==> Get(ys, t, l) == Get(ls, t, l)
  {
    BoundLineAssigns(ls, s, k);
    var ys := ls[b - 1 := kv];
    assert Alike(ls[b - 1], kv);
    forall t, l ensures BoundLine(ys, t, l) == BoundLine(ls, t, l) {
      AlikeBinds(ls, ys, t, l);
    }
    forall t, l | (t, l) != (s, k) ensures Get(ys, t, l) == Get(ls, t, l) {
      BoundLineAssigns(ls, t, l);
    }
  }

  /** Where `modify` leaves its line, and that the reader finds it there. */
  ghost function WrittenLine(ls: seq<string>, s: string, k: string): int {
    var rs := Rows(ls);
    if Known(rs, s) then
      if BoundLine(rs, s, k) != -1 then BoundLine(rs, s, k) else EndLine(rs, s) + 1
    else if s == "" then 1
    else |ls + NewHeader(ls, s)| + 1
  }

  /** What `modify` writes, character by character: one line, in front of everything
      if nothing is in force and nothing was known there, else over the old one or
      behind the last line of its section, and after a header for a new section. */
  lemma WrittenText(ls: seq<string>, s: string, k: string, v: string)
    requires PlainSection(s)
    ensures var kv, rs, ys := k + "=" + v, Rows(ls), Modified(ls, s, k, v);
            if BoundLine(rs, s, k) != -1 then ys == ls[BoundLine(rs, s, k) - 1 := kv]
            else if Known(rs, s) then ys == ls[..EndLine(rs, s)] + [kv] + ls[EndLine(rs, s)..]
            else if s == "" then ys == [kv] + ls
            else if exists t :: Known(rs, t) then ys == ls + ["", "", "[" + s + "]", kv]
            else ys == ls + ["[" + s + "]", kv]
  {
    KnownWhenBound(Rows(ls), s, k);
  }

  lemma RowsConcat(a: seq<string>, b: seq<string>)
    ensures Rows(a + b) == Rows(a) + Rows(b)
  {
  }

  lemma RowsReplaced(ls: seq<string>, i: nat, l: string)
    requires i < |ls|
    ensures Rows(ls[i := l]) == Rows(ls)[i := Read(l)]
  {
  }

  lemma RowsInserted(ls: seq<string>, p: nat, l: string)
    requires p <= |ls|
    ensures Rows(Inserted(ls, p, l)) == Inserted(Rows(ls), p, Read(l))
  {
  }

  /** A line that both opens a section and assigns has a key starting with `[`. */
  lemma OpeningKey(l: string)
    requires Opens(Read(l)) && HasKey(Read(l))
    ensures KeyOf(Read(l)) == "" || KeyOf(Read(l))[0] == '['
  {
  }

  lemma NewSectionRows(ls: seq<string>, s: string)
    requires PlainSection(s) && s != ""
    ensures var rs, hs := Rows(ls), Rows(ls + NewHeader(ls, s));
            && SectionAfter(hs) == s
            && forall t, l :: BoundLine(hs, t, l) == BoundLine(rs, t, l) && Get(hs, t, l) == Get(rs, t, l)
  {
    HeaderReads(s);
    var rs, hs := Rows(ls), Rows(ls + NewHeader(ls, s));
    var blanks := !NothingKnown(rs);
    RowsConcat(ls, NewHeader(ls, s));
    assert hs == if blanks then rs + [Plain(None)] + [Plain(None)] + [Named(s, None)] else rs + [Named(s, None)];
    NewHeaderReading(rs, blanks, s, "", "");
    forall t, l ensures BoundLine(hs, t, l) == BoundLine(rs, t, l) && Get(hs, t, l) == Get(rs, t, l) {
      NewHeaderReading(rs, blanks, s, t, l);
    }
  }

  /** After the edit the reader finds `kv` on line `n`, bound to (`s`, `k`),
      and reads everything else as before. */
  ghost predicate Lands(ls: seq<string>, ys: seq<string>, n: int, kv: string, s: string, k: string) {
    && BoundLine(Rows(ys), s, k) == n
    && 1 <= n <= |ys| && ys[n - 1] == kv
    && forall t, l :: (t, l) != (s, k) ==> Get(Rows(ys), t, l) == Get(Rows(ls), t, l)
  }

  lemma ReplacingLands(ls: seq<string>, b: nat, kv: string, s: string, k: string)
    requires PlainKey(k) && Read(kv).Plain? && HasKey(Read(kv)) && KeyOf(Read(kv)) == k
    requires BoundLine(Rows(ls), s, k) == b
    ensures 1 <= b <= |ls| && Lands(ls, ls[b - 1 := kv], b, kv, s, k)
  {
    BoundLineAssigns(Rows(ls), s, k);
    if Opens(Rows(ls)[b - 1]) { OpeningKey(ls[b - 1]); }
    RowsReplaced(ls, b - 1, kv);
    ReplacedReading(Rows(ls), b, Read(kv), s, k);
  }

  lemma InsertingLands(ls: seq<string>, p: nat, kv: string, s: string, k: string)
    requires Fits(Rows(ls), p, Read(kv), s, k) && BoundLine(Rows(ls), s, k) == -1
    ensures Lands(ls, Inserted(ls, p, kv), p + 1, kv, s, k)
  {
    RowsInserted(ls, p, kv);
    InsertedReading(Rows(ls), p, Read(kv), s, k);
  }

  lemma NewSectionLands(ls: seq<string>, kv: string, s: string, k: string)
    requires PlainSection(s) && s != "" && BoundLine(Rows(ls), s, k) == -1
    requires Read(kv).Plain? && HasKey(Read(kv)) && KeyOf(Read(kv)) == k
    ensures var hs := ls + NewHeader(ls, s); Lands(ls, hs + [kv], |hs| + 1, kv, s, k)
  {
    var hs := ls + NewHeader(ls, s);
    NewSectionRows(ls, s);
    RowsConcat(hs, [kv]);
    assert Rows([kv]) == [Read(kv)];
    NewSectionReading(Rows(ls), Rows(hs), s, k, Read(kv));
  }

  lemma KnownReading(ls: seq<string>, s: string, k: string, v: string)
    requires PlainKey(k) && Known(Rows(ls), s)
    ensures Lands(ls, Modified(ls, s, k, v), WrittenLine(ls, s, k), Assignment(k, v), s, k)
  {
    AssignmentReads(k, v);
    var b := BoundLine(Rows(ls), s, k);
    if b != -1 {
      ReplacingLands(ls, b, Assignment(k, v), s, k);
    } else {
      EndLineInSection(Rows(ls), s);
      InsertingLands(ls, EndLine(Rows(ls), s), Assignment(k, v), s, k);
    }
  }

  lemma HeadReading(ls: seq<string>, k: string, v: string)
    requires PlainKey(k) && !Known(Rows(ls), "")
    ensures Lands(ls, [Assignment(k, v)] + ls, 1, Assignment(k, v), "", k)
  {
    AssignmentReads(k, v);
    KnownWhenBound(Rows(ls), "", k);
    InsertingLands(ls, 0, Assignment(k, v), "", k);
    assert Inserted(ls, 0, Assignment(k, v)) == [Assignment(k, v)] + ls;
  }

  lemma UnknownReading(ls: seq<string>, s: string, k: string, v: string)
    requires PlainSection(s) && s != "" && PlainKey(k) && !Known(Rows(ls), s)
    ensures var hs := ls + NewHeader(ls, s); Lands(ls, hs + [Assignment(k, v)], |hs| + 1, Assignment(k, v), s, k)
  {
    AssignmentReads(k, v);
    KnownWhenBound(Rows(ls), s, k);
    NewSectionLands(ls, Assignment(k, v), s, k);
  }

  lemma ModifiedReading(ls: seq<string>, s: string, k: string, v: string)
    requires PlainSection(s) && PlainKey(k)
    ensures Lands(ls, Modified(ls, s, k, v), WrittenLine(ls, s, k), Assignment(k, v), s, k)
  {
    if Known(Rows(ls), s) {
      KnownReading(ls, s, k, v);
    } else if s == "" {
      HeadReading(ls, k, v);
    } else {
      UnknownReading(ls, s, k, v);
    }
  }

  /** Put-get with frame, in all branches of `modify`. */
  lemma PutGet(ls: seq<string>, s: string, k: string, v: string)
    requires PlainSection(s) && PlainKey(k)
    ensures Get(Rows(Modified(ls, s, k, v)), s, k) == Some(Strip(v))
    ensures forall t, l :: (t, l) != (s, k) ==> Get(Rows(Modified(ls, s, k, v)), t, l) == Get(Rows(ls), t, l)
  {
    ModifiedReading(ls, s, k, v);
    AssignmentReads(k, v);
  }

  lemma ModifiedOnlyAt(ls: seq<string>, s: string, k: string, v: string, w: string)
    ensures var n := WrittenLine(ls, s, k);
            && 1 <= n <= |Modified(ls, s, k, v)|
            && Modified(ls, s, k, v)[n - 1 := Assignment(k, w)] == Modified(ls, s, k, w)
  {
    var x, y := Assignment(k, v), Assignment(k, w);
    var rs := Rows(ls);
    if Known(rs, s) {
      if BoundLine(rs, s, k) == -1 { SwapMiddle(ls[..EndLine(rs, s)], x, y, ls[EndLine(rs, s)..]); }
    } else if s == "" {
      SwapMiddle([], x, y, ls);
      assert [] + [x] + ls == [x] + ls && [] + [y] + ls == [y] + ls;
    } else {
      SwapMiddle(ls + NewHeader(ls, s), x, y, []);
    }
  }

  lemma SwapMiddle(a: seq<string>, x: string, y: string, b: seq<string>)
    ensures (a + [x] + b)[|a| := y] == a + [y] + b
    ensures b == [] ==> (a + [x])[|a| := y] == a + [y]
  {
  }

  /** Of two puts to one key the last yields the same text as it alone. */
  lemma PutPut(ls: seq<string>, s: string, k: string, v: string, w: string)
    requires PlainSection(s) && PlainKey(k)
    ensures Modified(Modified(ls, s, k, v), s, k, w) == Modified(ls, s, k, w)
  {
    ModifiedReading(ls, s, k, v);
    ModifiedOnlyAt(ls, s, k, v, w);
    KnownWhenBound(Rows(Modified(ls, s, k, v)), s, k);
  }

  lemma {:induction false} StripTwice(s: string)
    ensures forall c :: c in Strip(s) ==> !Blank(c)
  {
    if s != "" { StripTwice(s[1..]); }
  }

  predicate UncleanKey(k: string) { exists c :: c in k && (Blank(c) || c == '=') }

  predicate UncleanSection(s: string) { exists c :: c in s && (Blank(c) || c == ']') }

  /** No name, key or value the reader delivers holds a blank; keys hold no
      `=` and section names no `]`. */
  predicate Clean(x: Row) {
    && (HasKey(x) ==> !UncleanKey(KeyOf(x)) && forall c :: c in ValueOf(x) ==> !Blank(c))
    && (Closed(x) ==> !UncleanSection(x.name))
  }

  lemma ReadIsClean(l: string)
    ensures Clean(Read(l))
  {
    var d := Strip(l);
    StripTwice(l);
    EntryIsClean(d);
    if Closed(Read(l)) { assert forall c :: c in Read(l).name ==> c in d[..Find(d, ']')]; }
  }

  lemma RowsAreClean(ls: seq<string>)
    ensures forall i :: 0 <= i < |ls| ==> Clean(Rows(ls)[i])
  {
    forall i | 0 <= i < |ls| ensures Clean(Rows(ls)[i]) { ReadIsClean(ls[i]); }
  }

  lemma EntryIsClean(d: string)
    requires forall c :: c in d ==> !Blank(c)
    ensures EntryIn(d).Some? ==> forall c :: c in EntryIn(d).value.key ==> !Blank(c) && c != '='
    ensures EntryIn(d).Some? ==> forall c :: c in EntryIn(d).value.value ==> !Blank(c)
  {
  }

  lemma GetIsStripped(ls: seq<string>, s: string, k: string, v: string)
    requires Get(Rows(ls), s, k) == Some(v)
    ensures Strip(v) == v
  {
    var b := BoundLine(Rows(ls), s, k);
    BoundLineAssigns(Rows(ls), s, k);
    RowsAreClean(ls);
    assert Clean(Rows(ls)[b - 1]);
    StripKeeps(v);
  }

  /** Writing back what is read changes no binding. */
  lemma GetPut(ls: seq<string>, s: string, k: string, v: string)
    requires PlainSection(s) && PlainKey(k) && Get(Rows(ls), s, k) == Some(v)
    ensures forall t, l :: Get(Rows(Modified(ls, s, k, v)), t, l) == Get(Rows(ls), t, l)
  {
    GetIsStripped(ls, s, k, v);
    PutGet(ls, s, k, v);
  }

  // ------------------------------------------------- on whole texts

  lemma ModifiedHasNoNewline(ls: seq<string>, s: string, k: string, v: string)
    requires OneLiners(ls) && NoNewline(s) && NoNewline(k) && NoNewline(v)
    ensures OneLiners(Modified(ls, s, k, v))
  {
    var kv, rs := Assignment(k, v), Rows(ls);
    assert OneLiners([kv]) && OneLiners([Header(s)]);
    if Known(rs, s) {
      if BoundLine(rs, s, k) == -1 {
        var e := EndLine(rs, s);
        assert OneLiners(ls[..e]) && OneLiners(ls[e..]);
      }
    } else {
      assert OneLiners(NewHeader(ls, s));
    }
  }

  /** The lens laws for `modify` on the text of a file. */
  lemma TextLens(t: string, s: string, k: string, v: string, w: string)
    requires PlainSection(s) && PlainKey(k) && NoNewline(v)
    ensures Lookup(ModifiedText(t, s, k, v), s, k) == Some(Strip(v))
    ensures forall s', k' :: (s', k') != (s, k) ==>
              Lookup(ModifiedText(t, s, k, v), s', k') == Lookup(t, s', k')
    ensures ModifiedText(ModifiedText(t, s, k, v), s, k, w) == ModifiedText(t, s, k, w)
  {
    assert NoNewline(s) && NoNewline(k);
    ModifiedHasNoNewline(Lines(t), s, k, v);
    LinesOfUnlines(Modified(Lines(t), s, k, v));
    PutGet(Lines(t), s, k, v);
    PutPut(Lines(t), s, k, v, w);
  }

  // ------------------------------------------------- exactly which names

  lemma {:induction false} SectionsAreClean(rs: seq<Row>)
    requires forall i :: 0 <= i < |rs| ==> Clean(rs[i])
    ensures !UncleanSection(SectionAfter(rs))
  {
    if rs != [] {
      SectionsAreClean(Init(rs));
      assert Clean(Last(rs));
    }
  }

  /** The written line opens section `s` itself, as `[a]=1` does for section
      `a` and key `[a]`. */
  predicate OwnHeader(s: string, k: string, v: string) {
    Read(Assignment(k, v)) == Named(s, Some(Entry(k, Strip(v))))
  }

  lemma HeldHeaderKeyless(s: string)
    requires Holds(s)
    ensures !HasKey(Read(Header(s)))
  {
    StripSubset(Header(s));
    assert '=' !in Header(s);
    assert EntryIn(Strip(Header(s))) == None;
  }

  lemma {:induction false} StripSubset(l: string)
    ensures forall c :: c in Strip(l) ==> c in l
    ensures forall c :: c in l && !Blank(c) ==> c in Strip(l)
  {
    if l != "" { StripSubset(l[1..]); }
  }

  /** What is written before the key of an unknown section binds nothing. */
  lemma NewHeaderKeyless(ls: seq<string>, s: string, t: string, l: string)
    ensures BoundLine(Rows(ls + NewHeader(ls, s)), t, l) == BoundLine(Rows(ls), t, l)
  {
    var rs := Rows(ls);
    var hs := NewHeader(ls, s);
    RowsConcat(ls, hs);
    if Holds(s) {
      var h := Read(Header(s));
      HeldHeaderKeyless(s);
      if NothingKnown(rs) {
        AppendedReading(rs, h, t, l);
        assert Rows(hs) == [h];
      } else {
        AppendedReading(rs, Plain(None), t, l);
        AppendedReading(rs + [Plain(None)], Plain(None), t, l);
        AppendedReading(rs + [Plain(None)] + [Plain(None)], h, t, l);
        assert rs + Rows(hs) == rs + [Plain(None)] + [Plain(None)] + [h];
      }
    } else {
      assert rs + Rows(hs) == rs;
    }
  }

  lemma OwnHeaderKey(s: string, k: string, v: string)
    requires OwnHeader(s, k, v)
    ensures k != "" && k[0] == '['
  {
    var d := Strip(Assignment(k, v));
    assert d[0] == '[' && k == d[..Find(d, '=')];
    assert Find(d, '=') != 0;
  }

  /** A key that starts with `[` comes from a line that opens a section. */
  predicate BracketOpens(x: Row) { HasKey(x) && KeyOf(x) != "" && KeyOf(x)[0] == '[' ==> Closed(x) }

  lemma ReadBracketOpens(l: string)
    ensures BracketOpens(Read(l))
  {
    var d := Strip(l);
    assert HasKey(Read(l)) && KeyOf(Read(l)) != "" ==> KeyOf(Read(l))[0] == d[0];
  }

  lemma RowsBracketOpen(ls: seq<string>)
    ensures forall i :: 0 <= i < |ls| ==> BracketOpens(Rows(ls)[i])
  {
    forall i | 0 <= i < |ls| ensures BracketOpens(Rows(ls)[i]) { ReadBracketOpens(ls[i]); }
  }

  lemma NamedReplaces(rs: seq<Row>, x: Row, s: string, k: string)
    requires BoundLine(rs, s, k) != -1 && Closed(rs[BoundLine(rs, s, k) - 1])
    requires Closed(x) && x.name == s && HasKey(x) && KeyOf(x) == k
    ensures BoundLine(rs[BoundLine(rs, s, k) - 1 := x], s, k) == BoundLine(rs, s, k)
  {
    var b := BoundLine(rs, s, k);
    BoundLineAssigns(rs, s, k);
    assert Last(rs[..b]) == rs[b - 1];
    assert Alike(rs[b - 1], x);
    AlikeBinds(rs, rs[b - 1 := x], s, k);
  }

  lemma BracketKeyBound(rs: seq<Row>, s: string, k: string)
    requires k != "" && k[0] == '[' && BoundLine(rs, s, k) != -1
    requires forall i :: 0 <= i < |rs| ==> BracketOpens(rs[i])
    ensures Closed(rs[BoundLine(rs, s, k) - 1])
  {
    BoundLineAssigns(rs, s, k);
    assert BracketOpens(rs[BoundLine(rs, s, k) - 1]);
  }

  lemma OwnHeaderReplaces(ls: seq<string>, s: string, k: string, v: string)
    requires OwnHeader(s, k, v) && BoundLine(Rows(ls), s, k) != -1
    ensures BoundLine(Rows(ls[BoundLine(Rows(ls), s, k) - 1 := Assignment(k, v)]), s, k) == BoundLine(Rows(ls), s, k)
  {
    var b := BoundLine(Rows(ls), s, k);
    OwnHeaderKey(s, k, v);
    RowsBracketOpen(ls);
    BracketKeyBound(Rows(ls), s, k);
    RowsReplaced(ls, b - 1, Assignment(k, v));
    NamedReplaces(Rows(ls), Read(Assignment(k, v)), s, k);
  }

  lemma NamedInserts(rs: seq<Row>, p: nat, x: Row, s: string, k: string)
    requires Closed(x) && x.name == s && HasKey(x) && KeyOf(x) == k && BoundLine(rs, s, k) == -1
    requires p <= |rs| && (p == |rs| || SectionAfter(rs[..p]) == s)
    ensures BoundLine(Inserted(rs, p, x), s, k) == p + 1
  {
    ShapeStep(rs[..p], x);
    BoundLineWins(rs, s, k);
    InsertedBinds(rs, p, x, s, k, |rs|);
    assert Inserted(rs, p, x)[..|rs| + 1] == Inserted(rs, p, x);
  }

  lemma OwnHeaderInserts(ls: seq<string>, p: nat, s: string, k: string, v: string)
    requires OwnHeader(s, k, v) && BoundLine(Rows(ls), s, k) == -1
    requires p <= |ls| && (p == |ls| || SectionAfter(Rows(ls)[..p]) == s)
    ensures BoundLine(Rows(Inserted(ls, p, Assignment(k, v))), s, k) == p + 1
  {
    RowsInserted(ls, p, Assignment(k, v));
    NamedInserts(Rows(ls), p, Read(Assignment(k, v)), s, k);
  }

  lemma RowsEnds(ls: seq<string>, l: string)
    ensures Rows([l] + ls) == Inserted(Rows(ls), 0, Read(l))
    ensures Rows(ls + [l]) == Inserted(Rows(ls), |ls|, Read(l))
  {
  }

  lemma OwnHeaderAppends(ls: seq<string>, s: string, k: string, v: string)
    requires OwnHeader(s, k, v) && BoundLine(Rows(ls), s, k) == -1
    ensures var hs := ls + NewHeader(ls, s); BoundLine(Rows(hs + [Assignment(k, v)]), s, k) == |hs| + 1
  {
    var hs := ls + NewHeader(ls, s);
    NewHeaderKeyless(ls, s, s, k);
    RowsEnds(hs, Assignment(k, v));
    NamedInserts(Rows(hs), |hs|, Read(Assignment(k, v)), s, k);
  }

  lemma OwnHeaderHeads(ls: seq<string>, k: string, v: string)
    requires OwnHeader("", k, v) && BoundLine(Rows(ls), "", k) == -1
    ensures BoundLine(Rows([Assignment(k, v)] + ls), "", k) == 1
  {
    RowsEnds(ls, Assignment(k, v));
    NamedInserts(Rows(ls), 0, Read(Assignment(k, v)), "", k);
  }

  lemma OwnHeaderLandsKnown(ls: seq<string>, s: string, k: string, v: string)
    requires OwnHeader(s, k, v) && Known(Rows(ls), s)
    ensures BoundLine(Rows(Modified(ls, s, k, v)), s, k) == WrittenLine(ls, s, k)
  {
    if BoundLine(Rows(ls), s, k) != -1 {
      OwnHeaderReplaces(ls, s, k, v);
    } else {
      EndLineInSection(Rows(ls), s);
      OwnHeaderInserts(ls, EndLine(Rows(ls), s), s, k, v);
    }
  }

  lemma OwnHeaderLands(ls: seq<string>, s: string, k: string, v: string)
    requires OwnHeader(s, k, v)
    ensures BoundLine(Rows(Modified(ls, s, k, v)), s, k) == WrittenLine(ls, s, k)
  {
    if Known(Rows(ls), s) {
      OwnHeaderLandsKnown(ls, s, k, v);
    } else {
      KnownWhenBound(Rows(ls), s, k);
      if s == "" { OwnHeaderHeads(ls, k, v); } else { OwnHeaderAppends(ls, s, k, v); }
    }
  }

  lemma OwnHeaderGets(ls: seq<string>, s: string, k: string, v: string)
    requires OwnHeader(s, k, v)
    ensures Get(Rows(Modified(ls, s, k, v)), s, k) == Some(Strip(v))
  {
    OwnHeaderLands(ls, s, k, v);
    ModifiedOnlyAt(ls, s, k, v, v);
    var ys, n := Modified(ls, s, k, v), WrittenLine(ls, s, k);
    assert ys[n - 1] == ys[n - 1 := Assignment(k, v)][n - 1];
    assert Rows(ys)[n - 1] == Read(Assignment(k, v));
  }

  /** The rows `modify` makes of an empty file. */
  lemma FirstRows(s: string, k: string, v: string)
    ensures Rows(Modified([], s, k, v)) ==
            (if Holds(s) then [Read(Header(s))] else []) + [Read(Assignment(k, v))]
  {
    assert !Known(Rows([]), s) && NothingKnown(Rows([]));
    var kv := Assignment(k, v);
    assert Modified([], s, k, v) == (if Holds(s) then [Header(s)] else []) + [kv];
  }

  /** If the key is found in a file that was empty, the written line assigns it. */
  lemma FirstAssigns(s: string, k: string, v: string)
    requires Get(Rows(Modified([], s, k, v)), s, k) == Some(Strip(v))
    ensures var x := Read(Assignment(k, v));
            && HasKey(x) && KeyOf(x) == k && ValueOf(x) == Strip(v)
            && (if Closed(x) then x.name == s else if Holds(s) then SectionAfter([Read(Header(s))]) == s else s == "")
  {
    var x := Read(Assignment(k, v));
    var hs := if Holds(s) then [Read(Header(s))] else [];
    FirstRows(s, k, v);
    if Holds(s) {
      HeldHeaderKeyless(s);
      AppendedReading([], Read(Header(s)), s, k);
      assert [] + [Read(Header(s))] == hs;
    }
    BoundLineStep(hs, x, s, k);
    ShapeStep(hs, x);
  }

  lemma PlainSectionHeld(s: string)
    requires NoNewline(s) && (if Holds(s) then SectionAfter([Read(Header(s))]) == s else s == "")
    ensures PlainSection(s)
  {
    if Holds(s) {
      RowsAreClean([Header(s)]);
      SectionsAreClean(Rows([Header(s)]));
      assert Rows([Header(s)]) == [Read(Header(s))];
      assert forall c :: c in s ==> !Blank(c);
    }
  }

  lemma PlainKeyRead(k: string, v: string)
    requires k != "" && NoNewline(k)
    requires var x := Read(Assignment(k, v)); !Opens(x) && HasKey(x) && KeyOf(x) == k
    ensures PlainKey(k)
  {
    var d := Strip(Assignment(k, v));
    ReadIsClean(Assignment(k, v));
    assert k[0] == d[0];
    assert forall c :: c in k ==> !Blank(c) && c != '=';
  }

  /** Put-get holds for every file exactly when both names are plain or the
      written line is itself the header of its section. */
  lemma PutGetExactly(s: string, k: string, v: string)
    requires NoNewline(s) && NoNewline(k) && k != ""
    ensures (forall ls :: Get(Rows(Modified(ls, s, k, v)), s, k) == Some(Strip(v)))
            <==> (PlainSection(s) && PlainKey(k)) || OwnHeader(s, k, v)
  {
    if PlainSection(s) && PlainKey(k) {
      forall ls ensures Get(Rows(Modified(ls, s, k, v)), s, k) == Some(Strip(v)) { PutGet(ls, s, k, v); }
    } else if OwnHeader(s, k, v) {
      forall ls ensures Get(Rows(Modified(ls, s, k, v)), s, k) == Some(Strip(v)) { OwnHeaderGets(ls, s, k, v); }
    } else if Get(Rows(Modified([], s, k, v)), s, k) == Some(Strip(v)) {
      FirstFound(s, k, v);
    }
  }

  lemma FirstFound(s: string, k: string, v: string)
    requires NoNewline(s) && NoNewline(k) && k != ""
    requires Get(Rows(Modified([], s, k, v)), s, k) == Some(Strip(v))
    ensures (PlainSection(s) && PlainKey(k)) || OwnHeader(s, k, v)
  {
    FirstAssigns(s, k, v);
    if !Closed(Read(Assignment(k, v))) {
      PlainSectionHeld(s);
      PlainKeyRead(k, v);
    }
  }

  // ------------------------------------------------- names with line ends

  predicate OneLine(x: Row) {
    && (HasKey(x) ==> NoNewline(KeyOf(x)) && NoNewline(ValueOf(x)))
    && (Closed(x) ==> NoNewline(x.name))
  }

  lemma RowsAreOneLine(ls: seq<string>)
    requires OneLiners(ls)
    ensures forall i :: 0 <= i < |ls| ==> OneLine(Rows(ls)[i])
  {
    forall i | 0 <= i < |ls| ensures OneLine(Rows(ls)[i]) {
      assert ls[i] in ls;
      StripSubset(ls[i]);
    }
  }

  lemma {:induction false} SectionIsOneLine(rs: seq<Row>)
    requires forall i :: 0 <= i < |rs| ==> OneLine(rs[i])
    ensures NoNewline(SectionAfter(rs))
  {
    if rs != [] {
      SectionIsOneLine(Init(rs));
      assert OneLine(Last(rs));
    }
  }

  lemma FoundIsOneLine(rs: seq<Row>, s: string, k: string, v: string)
    requires (forall i :: 0 <= i < |rs| ==> OneLine(rs[i])) && Get(rs, s, k) == Some(v)
    ensures NoNewline(s) && NoNewline(k) && NoNewline(v)
  {
    var b := BoundLine(rs, s, k);
    BoundLineAssigns(rs, s, k);
    assert OneLine(rs[b - 1]);
    SectionIsOneLine(rs[..b]);
  }

  /** On whole texts, for any section, any value and any key `modify` accepts. */
  lemma TextPutGetExactly(s: string, k: string, v: string)
    requires k != ""
    ensures (forall t :: Lookup(ModifiedText(t, s, k, v), s, k) == Some(Strip(v)))
            <==> && NoNewline(s) && NoNewline(k) && NoNewline(v)
                 && ((PlainSection(s) && PlainKey(k)) || OwnHeader(s, k, v))
  {
    if NoNewline(s) && NoNewline(k) && NoNewline(v) {
      forall t ensures Lookup(ModifiedText(t, s, k, v), s, k) == Get(Rows(Modified(Lines(t), s, k, v)), s, k) {
        LookupModified(t, s, k, v);
      }
      PutGetExactly(s, k, v);
      assert Lines("") == [];
      if Lookup(ModifiedText("", s, k, v), s, k) == Some(Strip(v)) { FirstFound(s, k, v); }
    } else if Lookup(ModifiedText("", s, k, v), s, k) == Some(Strip(v)) {
      LookupIsOneLine(ModifiedText("", s, k, v), s, k, v);
    }
  }

  lemma LookupModified(t: string, s: string, k: string, v: string)
    requires NoNewline(s) && NoNewline(k) && NoNewline(v)
    ensures Lookup(ModifiedText(t, s, k, v), s, k) == Get(Rows(Modified(Lines(t), s, k, v)), s, k)
  {
    ModifiedHasNoNewline(Lines(t), s, k, v);
    LinesOfUnlines(Modified(Lines(t), s, k, v));
  }

  lemma LookupIsOneLine(t: string, s: string, k: string, v: string)
    requires Lookup(t, s, k) == Some(Strip(v))
    ensures NoNewline(s) && NoNewline(k) && NoNewline(v)
  {
    RowsAreOneLine(Lines(t));
    FoundIsOneLine(Rows(Lines(t)), s, k, Strip(v));
    StripSubset(v);
  }
}
