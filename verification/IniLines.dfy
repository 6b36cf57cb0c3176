/** Text lines of an INI file, and how `IniManager` reads a single line
    (mng/hdr/inicpp.h: `filterData` and the body of the `parse` loop). */
module IniLines {
  import opened Options

  predicate Blank(c: char) { c == ' ' || c == '\t' }

  /** The line with every blank and tab removed. */
  function Strip(s: string): (r: string)
    ensures |r| <= |s|
  {
    if s == "" then "" else (if Blank(s[0]) then "" else [s[0]]) + Strip(s[1..])
  }

  /** First position of `c` in `s`, or -1. */
  function Find(s: string, c: char): (i: int)
    ensures -1 <= i < |s|
    ensures i == -1 ==> c !in s
    ensures i >= 0 ==> s[i] == c && forall j :: 0 <= j < i ==> s[j] != c
  {
    if s == "" then -1
    else if s[0] == c then 0
    else
      var i := Find(s[1..], c);
      if i == -1 then -1 else i + 1
  }

  lemma {:induction false} StripConcat(a: string, b: string)
    ensures Strip(a + b) == Strip(a) + Strip(b)
  {
    if a == "" {
      assert a + b == b;
    } else {
      assert (a + b)[1..] == a[1..] + b;
      StripConcat(a[1..], b);
    }
  }

  lemma {:induction false} StripKeeps(s: string)
    requires forall c :: c in s ==> !Blank(c)
    ensures Strip(s) == s
  {
    if s != "" { StripKeeps(s[1..]); }
  }

  lemma FindAfter(a: string, c: char, b: string)
    requires c !in a
    ensures Find(a + [c] + b, c) == |a|
  {
    var s := a + [c] + b;
    assert s[|a|] == c;
    assert forall j :: 0 <= j < |a| ==> s[j] == a[j];
  }

  /** `filterData`: the line is neither empty nor a comment. */
  predicate Active(l: string) {
    var d := Strip(l);
    d != "" && d[0] != ';' && d[0] != '#'
  }

  datatype Entry = Entry(key: string, value: string)

  /** What a line is to the reader: a line of no section (with no entry it is
      inert), a `[` line that names a section, or a `[` line without `]`. */
  datatype Row = Plain(entry: Option<Entry>) | Named(name: string, entry: Option<Entry>) | Unclosed

  /** The `=` test of the loop, on a line already stripped. */
  function EntryIn(d: string): Option<Entry> {
    var i := Find(d, '=');
    if i == -1 then None else Some(Entry(d[..i], d[i + 1..]))
  }

  function Read(l: string): Row {
    var d := Strip(l);
    if !Active(l) then Plain(None)
    else if d[0] != '[' then Plain(EntryIn(d))
    else if Find(d, ']') == -1 then Unclosed
    else Named(d[1..Find(d, ']')], EntryIn(d))
  }

  function Rows(ls: seq<string>): (rs: seq<Row>)
    ensures |rs| == |ls|
  {
    seq(|ls|, i requires 0 <= i < |ls| => Read(ls[i]))
  }

  /** The line starts with `[` and so ends the current run of keys. */
  predicate Opens(x: Row) { !x.Plain? }

  predicate Closed(x: Row) { x.Named? }

  predicate HasKey(x: Row) { !x.Unclosed? && x.entry.Some? }

  function KeyOf(x: Row): string requires HasKey(x) { x.entry.value.key }

  function ValueOf(x: Row): string requires HasKey(x) { x.entry.value.value }

  /** A key that `K=V` stores and finds again under its own name. */
  predicate PlainKey(k: string) {
    && k != ""
    && k[0] != '[' && k[0] != ';' && k[0] != '#'
    && forall c :: c in k ==> !Blank(c) && c != '=' && c != '\n'
  }

  /** A section name that `[S]` stores and finds again under its own name. */
  predicate PlainSection(s: string) {
    forall c :: c in s ==> !Blank(c) && c != '[' && c != ']' && c != '=' && c != '\n'
  }

  function Assignment(k: string, v: string): string { k + "=" + v }

  function Header(s: string): string { "[" + s + "]" }

  lemma StripAssignment(k: string, v: string)
    requires forall c :: c in k ==> !Blank(c)
    ensures Strip(Assignment(k, v)) == k + "=" + Strip(v)
  {
    StripConcat(k + "=", v);
    StripKeeps(k + "=");
  }

  lemma EntryInAssignment(k: string, v: string)
    requires '=' !in k
    ensures EntryIn(k + "=" + v) == Some(Entry(k, v))
  {
    var d := k + "=" + v;
    FindAfter(k, '=', v);
    assert d[..|k|] == k && d[|k| + 1..] == v;
  }

  lemma AssignmentReads(k: string, v: string)
    requires PlainKey(k)
    ensures Read(Assignment(k, v)) == Plain(Some(Entry(k, Strip(v))))
  {
    StripAssignment(k, v);
    EntryInAssignment(k, Strip(v));
    assert (k + "=" + Strip(v))[0] == k[0];
  }

  lemma HeaderReads(s: string)
    requires PlainSection(s)
    ensures Read(Header(s)) == Named(s, None)
  {
    var d := Header(s);
    StripKeeps(d);
    FindAfter("[" + s, ']', "");
    assert d == "[" + s + [']'] + "";
    assert d[1..|s| + 1] == s;
    assert '=' !in d;
  }

  // ---------------------------------------------------------------- by characters

  /** `c` is the first character of the line that is neither space nor tab. */
  ghost predicate StartsWith(l: string, c: char) {
    exists p :: 0 <= p < |l| && l[p] == c && c != ' ' && c != '\t' && forall i :: 0 <= i < p ==> l[i] == ' ' || l[i] == '\t'
  }

  /** A space or a tab anywhere makes no difference to how a line reads. */
  lemma BlanksDoNotCount(a: string, b: string)
    ensures Read(a + " " + b) == Read(a + b) && Read(a + "\t" + b) == Read(a + b)
  {
    BlankVanishes(a, ' ', b);
    BlankVanishes(a, '\t', b);
    assert Strip(a + " " + b) == Strip(a + b) == Strip(a + "\t" + b);
  }

  lemma BlankVanishes(a: string, c: char, b: string)
    requires c == ' ' || c == '\t'
    ensures Strip(a + [c] + b) == Strip(a + b)
  {
    StripConcat(a, b);
    StripConcat(a, [c] + b);
    assert a + [c] + b == a + ([c] + b);
    assert ([c] + b)[1..] == b;
  }

  /** Other characters stay. */
  lemma {:induction false} StripMembers(s: string, c: char)
    requires c != ' ' && c != '\t'
    ensures c in Strip(s) <==> c in s
  {
    if s != "" {
      StripMembers(s[1..], c);
      assert s == [s[0]] + s[1..];
    }
  }

  lemma {:induction false} StripFirst(l: string, p: nat)
    requires p < |l| && l[p] != ' ' && l[p] != '\t' && forall i :: 0 <= i < p ==> l[i] == ' ' || l[i] == '\t'
    ensures Strip(l) != "" && Strip(l)[0] == l[p]
  {
    if p > 0 { StripFirst(l[1..], p - 1); }
  }

  lemma {:induction false} FirstStripped(l: string) returns (p: nat)
    requires Strip(l) != ""
    ensures p < |l| && l[p] == Strip(l)[0] && l[p] != ' ' && l[p] != '\t'
    ensures forall i :: 0 <= i < p ==> l[i] == ' ' || l[i] == '\t'
  {
    if Blank(l[0]) {
      p := FirstStripped(l[1..]);
      assert forall i :: 1 <= i < p + 1 ==> l[i] == l[1..][i - 1];
      p := p + 1;
    } else {
      p := 0;
    }
  }

  lemma StartsExactly(l: string, c: char)
    requires c != ' ' && c != '\t'
    ensures StartsWith(l, c) <==> Strip(l) != "" && Strip(l)[0] == c
  {
    if StartsWith(l, c) {
      var p :| 0 <= p < |l| && l[p] == c && forall i :: 0 <= i < p ==> l[i] == ' ' || l[i] == '\t';
      StripFirst(l, p);
    }
    if Strip(l) != "" { var p := FirstStripped(l); }
  }

  /** Which lines end a run of keys, which of these name no section, and which
      lines are inert, by their characters. */
  lemma LineKinds(l: string)
    ensures Opens(Read(l)) <==> StartsWith(l, '[')
    ensures Read(l) == Unclosed <==> StartsWith(l, '[') && ']' !in l
    ensures StartsWith(l, ';') || StartsWith(l, '#') ==> Read(l) == Plain(None)
    ensures !StartsWith(l, '[') && '=' !in l ==> Read(l) == Plain(None)
  {
    StartsExactly(l, '[');
    StartsExactly(l, ';');
    StartsExactly(l, '#');
    StripMembers(l, ']');
    StripMembers(l, '=');
    FindWhere(Strip(l), ']');
    FindWhere(Strip(l), '=');
  }

  /** A line is a comment by the first character that is not blank. */
  lemma ActiveExactly(l: string)
    ensures Active(l) <==> Strip(l) != "" && !StartsWith(l, ';') && !StartsWith(l, '#')
  {
    StartsExactly(l, ';');
    StartsExactly(l, '#');
  }

  /** What a line assigns, by its text without blanks: the key ends at the first
      `=`. */
  lemma KeyOfLine(l: string, k: string, v: string)
    requires !StartsWith(l, ';') && !StartsWith(l, '#') && !(StartsWith(l, '[') && ']' !in l)
    requires '=' !in k && Strip(l) == k + "=" + v
    ensures HasKey(Read(l)) && KeyOf(Read(l)) == k && ValueOf(Read(l)) == v
  {
    ActiveExactly(l);
    LineKinds(l);
    EntryInAssignment(k, v);
    EntryOfRow(l, k + "=" + v);
  }

  lemma EntryOfRow(l: string, d: string)
    requires Active(l) && Strip(l) == d && Read(l) != Unclosed
    ensures Read(l).entry == EntryIn(d)
  {
  }

  /** What it names: the text up to the first `]`. */
  lemma NameOfLine(l: string, name: string, rest: string)
    requires ']' !in name && Strip(l) == "[" + name + "]" + rest
    ensures Closed(Read(l)) && Read(l).name == name
  {
    FindAfter("[" + name, ']', rest);
    var d := ("[" + name) + [']'] + rest;
    assert Strip(l) == d;
    assert d[1..|name| + 1] == name;
    NameOfRow(l, d);
  }

  lemma NameOfRow(l: string, d: string)
    requires Strip(l) == d && d != "" && d[0] == '[' && Find(d, ']') != -1
    ensures Closed(Read(l)) && Find(d, ']') > 0 && Read(l).name == d[1..Find(d, ']')]
  {
  }

  lemma FindWhere(s: string, c: char)
    ensures Find(s, c) == -1 <==> c !in s
  {
    if Find(s, c) != -1 { assert s[Find(s, c)] in s; }
  }

  // ---------------------------------------------------------------- text

  predicate NoNewline(s: string) { '\n' !in s }

  predicate OneLiners(ls: seq<string>) { forall l :: l in ls ==> NoNewline(l) }

  /** What repeated `std::getline` calls deliver until one of them fails. */
  function Lines(t: string): (ls: seq<string>)
    ensures OneLiners(ls)
    decreases |t|
  {
    if t == "" then []
    else
      var i := Find(t, '\n');
      if i == -1 then [t] else [t[..i]] + Lines(t[i + 1..])
  }

  /** Every line written back, each with its own line end. */
  function Unlines(ls: seq<string>): string {
    if ls == [] then "" else ls[0] + "\n" + Unlines(ls[1..])
  }

  lemma {:induction false} LinesOfUnlines(ls: seq<string>)
    requires OneLiners(ls)
    ensures Lines(Unlines(ls)) == ls
  {
    if ls != [] {
      var t := Unlines(ls);
      assert ls[0] in ls && NoNewline(ls[0]);
      FindAfter(ls[0], '\n', Unlines(ls[1..]));
      assert t[..|ls[0]|] == ls[0];
      assert t[|ls[0]| + 1..] == Unlines(ls[1..]);
      LinesOfUnlines(ls[1..]);
    }
  }

  /** The lines the `do ... while (!eof)` loop of `parse` sees: one more,
      empty, when the text is empty or ends with a line end. */
  function ParsedLines(t: string): seq<string> {
    if t == "" || t[|t| - 1] == '\n' then Lines(t) + [""] else Lines(t)
  }
}
