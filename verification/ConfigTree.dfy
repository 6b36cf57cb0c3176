/** Setting one dotted path of a libconfig tree (mng/src/mng_scpiparse.cc,
    `ParseConfigFile` and `ConvetConfigValue`).  Reading and writing the file
    are outside; what the library throws becomes a failed result. */
module ConfigTree {
  import opened Options

  datatype Result<T> = Ok(value: T) | Threw

  /** `Other` stands for the setting types the converter leaves alone. */
  datatype Setting =
    | IntValue(i: int) | FloatValue(f: real) | StringValue(s: string) | Other(id: nat)
    | Group(members: map<string, Setting>)

  type Path = seq<string>

  /** `std::stoi` and `std::stod`, which throw on text that is no number. */
  datatype Numbers = Numbers(toInt: string -> Option<int>, toFloat: string -> Option<real>)

  const EMPTY: Setting := Group(map[])

  function Lookup(t: Setting, p: Path): Option<Setting>
    decreases |p|
  {
    if p == [] then Some(t)
    else if t.Group? && p[0] in t.members then Lookup(t.members[p[0]], p[1..])
    else None
  }

  /** The tree with `v` at `p` and the groups above it that were missing. */
  function Set(t: Setting, p: Path, v: Setting): Setting
    decreases |p|
  {
    if p == [] then v
    else if !t.Group? then t
    else Group(t.members[p[0] := Set(Below(t, p[0]), p[1..], v)])
  }

  function Below(t: Setting, name: string): Setting
    requires t.Group?
  { if name in t.members then t.members[name] else EMPTY }

  /** Nothing but groups lies above the end of the path. */
  predicate Open(t: Setting, p: Path)
    decreases |p|
  {
    p == [] || (t.Group? && (p[0] in t.members ==> Open(t.members[p[0]], p[1..])))
  }

  /** The same, by the prefixes of the path. */
  ghost predicate GroupsAbove(t: Setting, p: Path) {
    forall i :: 0 <= i < |p| ==> GroupOrMissing(t, p[..i])
  }

  predicate GroupOrMissing(t: Setting, p: Path) { Lookup(t, p).Some? ==> Lookup(t, p).value.Group? }

  lemma {:induction false} OpenMeans(t: Setting, p: Path)
    ensures Open(t, p) <==> GroupsAbove(t, p)
    decreases |p|
  {
    if p != [] {
      assert p[..0] == [];
      assert GroupOrMissing(t, p[..0]) <==> t.Group?;
      if t.Group? {
        var rest := p[1..];
        forall i | 1 <= i < |p|
          ensures GroupOrMissing(t, p[..i]) <==>
                  (p[0] in t.members ==> GroupOrMissing(t.members[p[0]], rest[..i - 1]))
        {
          assert p[..i][1..] == rest[..i - 1];
        }
        if p[0] in t.members {
          OpenMeans(t.members[p[0]], rest);
          forall i | 0 <= i < |rest| ensures GroupOrMissing(t.members[p[0]], rest[..i]) <==> GroupOrMissing(t, p[..i + 1]) {
          }
        }
      }
    }
  }

  lemma OpenEmpty(p: Path)
    ensures Open(EMPTY, p)
  {
  }

  /** A set path holds the value; the groups above it are there; and every
      path that neither passes through it nor leads to it is as before. */
  lemma {:induction false} SetLookup(t: Setting, p: Path, v: Setting, q: Path)
    requires Open(t, p)
    ensures p <= q ==> Lookup(Set(t, p, v), q) == Lookup(v, q[|p|..])
    ensures q <= p && q != p ==> Lookup(Set(t, p, v), q).Some? && Lookup(Set(t, p, v), q).value.Group?
    ensures !(p <= q) && !(q <= p) ==> Lookup(Set(t, p, v), q) == Lookup(t, q)
    decreases |p|
  {
    if p == [] {
      assert q[0..] == q;
    } else if q != [] && q[0] == p[0] {
      OpenEmpty(p[1..]);
      SetLookup(Below(t, p[0]), p[1..], v, q[1..]);
      if p <= q { assert q[|p|..] == q[1..][|p[1..]|..]; }
      assert p <= q <==> p[1..] <= q[1..];
      assert q <= p <==> q[1..] <= p[1..];
    }
  }

  lemma {:induction false} SetTwice(t: Setting, p: Path, v: Setting, w: Setting)
    requires Open(t, p)
    ensures Set(Set(t, p, v), p, w) == Set(t, p, w) && Open(Set(t, p, v), p)
    decreases |p|
  {
    if p != [] {
      OpenEmpty(p[1..]);
      var name, rest := p[0], p[1..];
      var below := Set(Below(t, name), rest, v);
      SetTwice(Below(t, name), rest, v, w);
      assert Below(Set(t, p, v), name) == below;
      var again := Set(below, rest, w);
      assert t.members[name := below][name := again] == t.members[name := again];
    }
  }

  /** Adding a group and then a member in it is setting the member. */
  lemma {:induction false} SetDeeper(t: Setting, a: Path, x: string, v: Setting)
    requires Open(t, a) && Lookup(t, a).None?
    ensures Set(Set(t, a, EMPTY), a + [x], v) == Set(t, a + [x], v)
    decreases |a|
  {
    var name, rest := a[0], a[1..];
    assert (a + [x])[1..] == rest + [x] && (a + [x])[0] == name;
    if name in t.members {
      SetDeeper(t.members[name], rest, x, v);
    } else {
      SetDeeperInEmpty(rest, x, v);
    }
    var below := Set(Below(t, name), rest, EMPTY);
    assert Below(Set(t, a, EMPTY), name) == below;
    assert t.members[name := below][name := Set(below, rest + [x], v)] == t.members[name := Set(below, rest + [x], v)];
  }

  lemma {:induction false} SetDeeperInEmpty(a: Path, x: string, v: Setting)
    ensures Set(Set(EMPTY, a, EMPTY), a + [x], v) == Set(EMPTY, a + [x], v)
    decreases |a|
  {
    if a != [] {
      assert (a + [x])[1..] == a[1..] + [x];
      SetDeeperInEmpty(a[1..], x, v);
    }
  }

  // ------------------------------------------------- what the call does

  function DefaultOf(typeName: string): Result<Setting> {
    if typeName == "int" then Ok(IntValue(0))
    else if typeName == "float" then Ok(FloatValue(0.0))
    else if typeName == "string" then Ok(StringValue(""))
    else Threw
  }

  /** `ConvetConfigValue`: the type of the setting in the tree decides. */
  function Convert(leaf: Setting, text: string, num: Numbers): Result<Setting> {
    match leaf
    case IntValue(_) => (match num.toInt(text) case Some(i) => Ok(IntValue(i)) case None => Threw)
    case StringValue(_) => Ok(StringValue(text))
    case FloatValue(_) => (match num.toFloat(text) case Some(f) => Ok(FloatValue(f)) case None => Threw)
    case _ => Ok(leaf)
  }

  /** The value the path ends up with: converted by the type already there, or
      by the declared type when the leaf is new. */
  function NewLeaf(t: Setting, p: Path, typeName: string, text: string, num: Numbers): Result<Setting> {
    var leaf := match Lookup(t, p) case Some(x) => Ok(x) case None => DefaultOf(typeName);
    if leaf.Threw? then Threw else Convert(leaf.value, text, num)
  }

  /** The call succeeds exactly when the first component exists, no scalar
      lies above the leaf, and the leaf has a type the text converts to. */
  function Upsert(t: Setting, p: Path, typeName: string, text: string, num: Numbers): Result<Setting> {
    if p == [] then Ok(t)
    else if Lookup(t, p[..1]).None? || !Open(t, p) then Threw
    else
      match NewLeaf(t, p, typeName, text, num)
      case Ok(v) => Ok(Set(t, p, v))
      case Threw => Threw
  }

  /** The whole effect, by paths: the full path holds the converted value, its
      prefixes are groups, every other path is untouched. */
  lemma UpsertByPath(t: Setting, p: Path, typeName: string, text: string, num: Numbers, q: Path)
    requires p != [] && Upsert(t, p, typeName, text, num).Ok?
    ensures var t' := Upsert(t, p, typeName, text, num).value;
            && Lookup(t', p) == Some(NewLeaf(t, p, typeName, text, num).value)
            && (q <= p && q != p ==> Lookup(t', q).Some? && Lookup(t', q).value.Group?)
            && (!(q <= p) ==> Lookup(t', q) == Lookup(t, q))
  {
    var v := NewLeaf(t, p, typeName, text, num).value;
    SetLookup(t, p, v, p);
    SetLookup(t, p, v, q);
    if p <= q && q != p { LookupUnder(t, p, q); }
  }

  /** The setting at the path is text, or is missing and declared as text. */
  predicate IsText(t: Setting, p: Path, typeName: string) {
    var held := Lookup(t, p);
    if held.Some? then held.value.StringValue? else typeName == "string"
  }

  predicate IsInt(t: Setting, p: Path, typeName: string) {
    var held := Lookup(t, p);
    if held.Some? then held.value.IntValue? else typeName == "int"
  }

  predicate IsFloat(t: Setting, p: Path, typeName: string) {
    var held := Lookup(t, p);
    if held.Some? then held.value.FloatValue? else typeName == "float"
  }

  /** What the path then holds: the text itself, the number the text stands for, or
      what it held if that is neither text nor number.  The call fails exactly when
      the first component is missing, something above is no group, a number is
      wanted and the text is none, or a new setting is of none of the three types. */
  lemma UpsertDecides(t: Setting, p: Path, typeName: string, text: string, num: Numbers)
    requires p != []
    ensures var r := Upsert(t, p, typeName, text, num);
            && (r.Threw? <==>
                  || Lookup(t, p[..1]).None? || !GroupsAbove(t, p)
                  || (IsInt(t, p, typeName) && num.toInt(text).None?)
                  || (IsFloat(t, p, typeName) && num.toFloat(text).None?)
                  || (Lookup(t, p).None? && typeName != "int" && typeName != "float" && typeName != "string"))
            && (r.Ok? && IsText(t, p, typeName) ==> Lookup(r.value, p) == Some(StringValue(text)))
            && (r.Ok? && IsInt(t, p, typeName) ==>
                  num.toInt(text).Some? && Lookup(r.value, p) == Some(IntValue(num.toInt(text).value)))
            && (r.Ok? && IsFloat(t, p, typeName) ==>
                  num.toFloat(text).Some? && Lookup(r.value, p) == Some(FloatValue(num.toFloat(text).value)))
            && (r.Ok? && !IsText(t, p, typeName) && !IsInt(t, p, typeName) && !IsFloat(t, p, typeName) ==>
                  Lookup(t, p).Some? && Lookup(r.value, p) == Lookup(t, p))
  {
    OpenMeans(t, p);
    if Upsert(t, p, typeName, text, num).Ok? { UpsertByPath(t, p, typeName, text, num, p); }
  }

  lemma {:induction false} LookupUnder(t: Setting, p: Path, q: Path)
    requires p <= q
    ensures Lookup(t, q) == match Lookup(t, p) case Some(x) => Lookup(x, q[|p|..]) case None => None
    decreases |p|
  {
    if p != [] {
      if t.Group? && p[0] in t.members {
        LookupUnder(t.members[p[0]], p[1..], q[1..]);
        assert q[1..][|p[1..]|..] == q[|p|..];
      }
    } else {
      assert q[0..] == q;
    }
  }

  // ------------------------------------------------- the loop

  lemma {:induction false} OpenPrefix(t: Setting, p: Path, i: nat)
    requires i <= |p| && Open(t, p)
    ensures Open(t, p[..i])
    decreases i
  {
    if i > 0 && p[0] in t.members {
      assert p[..i][1..] == p[1..][..i - 1];
      OpenPrefix(t.members[p[0]], p[1..], i - 1);
    }
  }

  /** Once a prefix is missing the rest of the path is free. */
  lemma {:induction false} OpenBeyond(t: Setting, p: Path, i: nat)
    requires i <= |p| && Open(t, p[..i]) && Lookup(t, p[..i]).None?
    ensures Open(t, p)
    decreases i
  {
    assert p[..i][1..] == p[1..][..i - 1];
    if p[0] in t.members { OpenBeyond(t.members[p[0]], p[1..], i - 1); }
  }

  /** A setting that is there but is no group blocks what lies below it. */
  lemma {:induction false} Blocked(t: Setting, p: Path, i: nat)
    requires i < |p| && Lookup(t, p[..i]).Some?
    ensures Open(t, p[..i + 1]) <==> Lookup(t, p[..i]).value.Group?
    decreases i
  {
    assert p[..i + 1][1..] == p[1..][..i];
    if i > 0 {
      assert p[..i][1..] == p[1..][..i - 1];
      Blocked(t.members[p[0]], p[1..], i - 1);
    }
  }

  /** `ParseConfigFile` on the tree read from the file. */
  method ParseConfigFile(root: Setting, p: Path, typeName: string, text: string, num: Numbers)
    returns (r: Result<Setting>)
    ensures r == Upsert(root, p, typeName, text, num)
  {
    if p == [] { return Ok(root); }
    var tree := root;
    var i := 0;
    while i < |p|
      invariant 0 <= i <= |p|
      invariant Open(root, p[..i]) && (i > 0 ==> Lookup(root, p[..1]).Some?)
      invariant i < |p| ==> tree == if Lookup(root, p[..i]).Some? then root else Set(root, p[..i], EMPTY)
      invariant i == |p| && Lookup(root, p).Some? ==> tree == root
      invariant i == |p| && Lookup(root, p).None? ==>
                  DefaultOf(typeName).Ok? && tree == Set(root, p, DefaultOf(typeName).value)
    {
      assert p[..i] + [p[i]] == p[..i + 1];
      assert p[..|p|] == p;
      if Lookup(root, p[..i]).Some? {
        Blocked(root, p, i);
        LookupUnder(root, p[..i], p[..i + 1]);
      } else {
        SetDeeper(root, p[..i], p[i], EMPTY);
        NewGroupIsBare(root, p, i);
        assert p[..i + 1][..i] == p[..i];
        OpenBeyond(root, p[..i + 1], i);
      }
      if Lookup(tree, p[..i + 1]).None? {
        if i == 0 { return Threw; }
        var parent := Lookup(tree, p[..i]);
        if parent.None? || !parent.value.Group? {
          if Open(root, p) { OpenPrefix(root, p, i + 1); }
          return Threw;
        }
        if i != |p| - 1 {
          tree := Set(tree, p[..i + 1], EMPTY);
        } else {
          var leaf := DefaultOf(typeName);
          if leaf.Threw? { return Threw; }
          if Lookup(root, p[..i]).None? { SetDeeper(root, p[..i], p[i], leaf.value); }
          tree := Set(tree, p[..i + 1], leaf.value);
        }
      }
      i := i + 1;
    }
    assert p[..|p|] == p;
    r := WriteLeaf(root, tree, p, typeName, text, num);
  }

  /** In a tree just padded down to `p[..i]` that prefix is an empty group. */
  lemma NewGroupIsBare(t: Setting, p: Path, i: nat)
    requires i < |p| && Open(t, p[..i]) && Lookup(t, p[..i]).None?
    ensures Lookup(Set(t, p[..i], EMPTY), p[..i]) == Some(EMPTY)
    ensures Lookup(Set(t, p[..i], EMPTY), p[..i + 1]).None? && Lookup(t, p[..i + 1]).None?
  {
    SetLookup(t, p[..i], EMPTY, p[..i]);
    SetLookup(t, p[..i], EMPTY, p[..i + 1]);
    LookupUnder(t, p[..i], p[..i + 1]);
  }

  method WriteLeaf(root: Setting, tree: Setting, p: Path, typeName: string, text: string, num: Numbers)
    returns (r: Result<Setting>)
    requires p != [] && Open(root, p) && Lookup(root, p[..1]).Some?
    requires Lookup(root, p).Some? ==> tree == root
    requires Lookup(root, p).None? ==> DefaultOf(typeName).Ok? && tree == Set(root, p, DefaultOf(typeName).value)
    ensures r == Upsert(root, p, typeName, text, num)
  {
    if Lookup(root, p).None? {
      SetLookup(root, p, DefaultOf(typeName).value, p);
    }
    var leaf := Lookup(tree, p).value;
    var v := Convert(leaf, text, num);
    if v.Threw? { return Threw; }
    if Lookup(root, p).None? { SetTwice(root, p, leaf, v.value); }
    return Ok(Set(tree, p, v.value));
  }
}
