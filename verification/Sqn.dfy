/** Sequence numbers of authentication challenges (Annex C of 3GPP TS 33.102,
    srscnw/src/cnw.cc `increment_sqn`; srscnw/src/nas_mm.cc `gen_auth_info_answer`). */
module Sqn {
  import opened Bytes

  const IND_SIZE: nat := 32               // LTE_FDD_ENB_IND_HE_N_BITS == 5
  const IND_MAX: nat := 31                // LTE_FDD_ENB_IND_HE_MAX_VALUE
  const SEQ_MAX: nat := 0x7FF_FFFF_FFFF   // LTE_FDD_ENB_SEQ_HE_MAX_VALUE, 2^43 - 1
  const SQN_SIZE: nat := 0x1_0000_0000_0000

  function Seq(sqn: nat): nat { sqn / IND_SIZE }
  function Ind(sqn: nat): nat { sqn % IND_SIZE }
  function Compose(hi: nat, lo: nat): nat { hi * IND_SIZE + lo }

  function Next(sqn: nat): (r: nat)
    ensures Seq(r) == (Seq(sqn) + 1) % SEQ_MAX && Ind(r) == (Ind(sqn) + 1) % IND_MAX
    ensures r < SQN_SIZE
  {
    Compose((Seq(sqn) + 1) % SEQ_MAX, (Ind(sqn) + 1) % IND_MAX)
  }

  /** Outside SEQ wrap each step raises the number, by 2 or by 33. */
  lemma NextRaises(sqn: nat)
    requires Seq(sqn) + 1 < SEQ_MAX
    ensures Next(sqn) == sqn + (if Ind(sqn) < IND_MAX - 1 then 33 else 2)
  {
    assert sqn == Compose(Seq(sqn), Ind(sqn));
  }

  /** The SQN of the `n`-th challenge after one that embeds `sqn`. */
  function After(sqn: nat, n: nat): nat {
    if n == 0 then sqn else Next(After(sqn, n - 1))
  }

  // ------------------------------------------------- modular arithmetic

  lemma ModSucc(a: nat, m: nat)
    requires m > 0
    ensures (a % m + 1) % m == (a + 1) % m
  {
    var q := a / m;
    assert a + 1 == q * m + (a % m + 1);
    if a % m + 1 == m {
      assert a + 1 == (q + 1) * m;
      ModOf(q + 1, 0, m);
      ModOf(1, 0, m);
    } else {
      ModOf(q, a % m + 1, m);
      ModOf(0, a % m + 1, m);
    }
  }

  lemma ModOf(q: nat, r: nat, m: nat)
    requires r < m
    ensures (q * m + r) % m == r && (q * m + r) / m == q
  {
    var a := q * m + r;
    var d := a / m - q;
    assert a == (a / m) * m + a % m;
    assert d * m == r - a % m;
    MulBound(d, m);
  }

  lemma MulBound(d: int, m: int)
    requires m > 0
    ensures d >= 1 ==> d * m >= m
    ensures d <= -1 ==> d * m <= -m
  {
  }

  /** Equal remainders differ by a multiple. */
  lemma ModEqual(a: nat, b: nat, m: nat)
    requires m > 0 && a <= b && a % m == b % m
    ensures b / m >= a / m && b - a == (b / m - a / m) * m
  {
    assert b - a == (b / m - a / m) * m;
    MulBound(b / m - a / m, m);
  }

  /** 2^43 - 1 and 31 are coprime: 31 divides a multiple of 2^43 - 1 only
      when it divides the factor, because 2^43 - 1 is 7 modulo 31 and
      9 * 7 == 2 * 31 + 1. */
  lemma Coprime(d: nat, p: nat, q: nat)
    requires d == p * SEQ_MAX && d == q * IND_MAX
    ensures d % (SEQ_MAX * IND_MAX) == 0
  {
    var c := 283_744_936_200;
    assert SEQ_MAX == c * 31 + 7;
    assert 7 * p == 31 * (q - c * p);
    assert p == 31 * (9 * (q - c * p) - 2 * p);
    var r := 9 * (q - c * p) - 2 * p;
    assert d == r * (SEQ_MAX * IND_MAX);
    ModOf(r, 0, SEQ_MAX * IND_MAX);
  }

  // ------------------------------------------------- the period

  lemma {:induction false} AfterFields(sqn: nat, n: nat)
    requires n >= 1
    ensures Seq(After(sqn, n)) == (Seq(sqn) + n) % SEQ_MAX
    ensures Ind(After(sqn, n)) == (Ind(sqn) + n) % IND_MAX
  {
    if n > 1 {
      AfterFields(sqn, n - 1);
      ModSucc(Seq(sqn) + (n - 1), SEQ_MAX);
      ModSucc(Ind(sqn) + (n - 1), IND_MAX);
    }
  }

  lemma FieldsApart(a: nat, b: nat, i: nat, j: nat)
    requires i < j < i + SEQ_MAX * IND_MAX
    ensures (a + i) % SEQ_MAX != (a + j) % SEQ_MAX || (b + i) % IND_MAX != (b + j) % IND_MAX
  {
    if (a + i) % SEQ_MAX == (a + j) % SEQ_MAX && (b + i) % IND_MAX == (b + j) % IND_MAX {
      ModEqual(a + i, a + j, SEQ_MAX);
      ModEqual(b + i, b + j, IND_MAX);
      Coprime(j - i, (a + j) / SEQ_MAX - (a + i) / SEQ_MAX, (b + j) / IND_MAX - (b + i) / IND_MAX);
    }
  }

  /** Any 31 * (2^43 - 1) consecutive challenges embed pairwise distinct
      numbers, from any 48-bit start, in or out of the cycle. */
  lemma ChallengesDistinct(sqn: nat, i: nat, j: nat)
    requires i < j < SEQ_MAX * IND_MAX
    ensures After(sqn, i) != After(sqn, j)
  {
    AfterFields(sqn, j);
    FieldsApart(Seq(sqn), Ind(sqn), i, j);
    if i >= 1 {
      AfterFields(sqn, i);
    } else if Seq(sqn) < SEQ_MAX && Ind(sqn) < IND_MAX {
      ModOf(0, Seq(sqn), SEQ_MAX);
      ModOf(0, Ind(sqn), IND_MAX);
    }
  }

  /** ... and no more than that many: the number then repeats. */
  lemma ChallengesRepeat(sqn: nat, n: nat)
    requires n >= 1
    ensures After(sqn, n + SEQ_MAX * IND_MAX) == After(sqn, n)
  {
    AfterFields(sqn, n);
    AfterFields(sqn, n + SEQ_MAX * IND_MAX);
    ModShift(Seq(sqn) + n, IND_MAX, SEQ_MAX);
    ModShift(Ind(sqn) + n, SEQ_MAX, IND_MAX);
  }

  lemma ModShift(a: nat, q: nat, m: nat)
    requires m > 0
    ensures (a + q * m) % m == a % m
  {
    assert a + q * m == (a / m + q) * m + a % m;
    ModOf(a / m + q, a % m, m);
  }

  lemma {:induction false} AfterAfter(sqn: nat, i: nat, d: nat)
    ensures After(After(sqn, i), d) == After(sqn, i + d)
  {
    if d > 0 { AfterAfter(sqn, i, d - 1); }
  }

  /** The same for any window of challenges. */
  lemma WindowDistinct(sqn: nat, i: nat, j: nat)
    requires i < j < i + SEQ_MAX * IND_MAX
    ensures After(sqn, i) != After(sqn, j)
  {
    ChallengesDistinct(After(sqn, i), 0, j - i);
    AfterAfter(sqn, i, j - i);
  }

  // ------------------------------------------------- six bytes

  function Weight(i: nat): nat
    requires i < 6
  { [0x100_0000_0000, 0x1_0000_0000, 0x100_0000, 0x1_0000, 0x100, 1][i] }

  /** The first `n` bytes of a big-endian 48-bit number; the source ORs the
      shifted bytes, which do not overlap. */
  function Value(s: seq<uint8>, n: nat): nat
    requires n <= 6 <= |s|
  { if n == 0 then 0 else Value(s, n - 1) + s[n - 1] as nat * Weight(n - 1) }

  /** The most significant byte comes first. */
  lemma BigEndian(s: seq<uint8>)
    requires |s| >= 6
    ensures Value(s, 6) == ((((s[0] as nat * 256 + s[1] as nat) * 256 + s[2] as nat) * 256 + s[3] as nat) * 256
                            + s[4] as nat) * 256 + s[5] as nat
  {
    assert Value(s, 2) == Value(s, 1) + s[1] as nat * Weight(1);
    assert Value(s, 4) == Value(s, 3) + s[3] as nat * Weight(3);
  }

  function ByteOf(v: nat, i: nat): uint8
    requires i < 6
  { (v / Weight(i) % 256) as uint8 }

  lemma Below(t: nat, r: nat, w: nat)
    requires t <= 255 && r < w
    ensures t * w + r < 256 * w
  {
    assert t * w <= 255 * w by { MulMono(t, 255, w); }
  }

  lemma MulMono(a: nat, b: nat, w: nat)
    requires a <= b
    ensures a * w <= b * w
  {
  }

  /** A byte of a number and what lies above it. */
  lemma SplitByte(v: nat, w: nat)
    requires w > 0
    ensures v / w == 256 * (v / (256 * w)) + v / w % 256
  {
    var q, r := v / w, v % w;
    var p, t := q / 256, q % 256;
    Regroup(p, t, w);
    assert v == q * w + r;
    assert q == 256 * p + t;
    Below(t, r, w);
    ModOf(p, t * w + r, 256 * w);
  }

  lemma {:induction false} BytesPrefix(v: nat, s: seq<uint8>, n: nat)
    requires v < SQN_SIZE && |s| >= 6 && forall i :: 0 <= i < 6 ==> s[i] == ByteOf(v, i)
    requires 1 <= n <= 6
    ensures Value(s, n) == v / Weight(n - 1) * Weight(n - 1)
  {
    if n > 1 {
      BytesPrefix(v, s, n - 1);
      var w := Weight(n - 1);
      assert Weight(n - 2) == 256 * w;
      OneMoreByte(v, w);
      assert s[n - 1] as nat == v / w % 256;
    }
  }

  lemma OneMoreByte(v: nat, w: nat)
    requires w > 0
    ensures v / (256 * w) * (256 * w) + (v / w % 256) * w == v / w * w
  {
    SplitByte(v, w);
    Regroup(v / (256 * w), v / w % 256, w);
  }

  lemma Regroup(h: nat, b: nat, w: nat)
    ensures h * (256 * w) + b * w == (256 * h + b) * w
  {
  }

  lemma BytesRoundTrip(v: nat, s: seq<uint8>)
    requires v < SQN_SIZE && |s| >= 6 && forall i :: 0 <= i < 6 ==> s[i] == ByteOf(v, i)
    ensures Value(s, 6) == v
  {
    BytesPrefix(v, s, 6);
  }

  /** `increment_sqn`; `sqn` and `next` may be the same array. */
  method IncrementSqn(sqn: array<uint8>, next: array<uint8>)
    requires sqn.Length == 6 && next.Length == 6
    modifies next
    ensures Value(next[..], 6) == Next(old(Value(sqn[..], 6)))
  {
    var sqn64: nat := 0;
    for i := 0 to 6
      invariant sqn64 == Value(sqn[..], i)
      invariant sqn[..] == old(sqn[..])
    {
      sqn64 := sqn64 + sqn[i] as nat * Weight(i);
    }
    var hi, lo := sqn64 / IND_SIZE, sqn64 % IND_SIZE;
    var nextsqn := (hi + 1) % SEQ_MAX * IND_SIZE + (lo + 1) % IND_MAX;
    for i := 0 to 6
      invariant forall j :: 0 <= j < i ==> next[j] == ByteOf(nextsqn, j)
    {
      next[i] := (nextsqn / Weight(i) % 256) as uint8;
    }
    BytesRoundTrip(nextsqn, next[..]);
  }

  // ------------------------------------------------- challenges

  /** The SQN a subscriber reads from AUTN, knowing the anonymity key. */
  function Embedded(autn: seq<byte>, ak: seq<byte>): seq<byte>
    requires |autn| == 16 && |ak| == 6
  { seq(6, i requires 0 <= i < 6 => autn[i] ^ ak[i]) }

  function AsBytes(s: seq<uint8>): seq<byte> { seq(|s|, i requires 0 <= i < |s| => s[i] as byte) }

  class Subscriber {
    const sqn: array<uint8>
    ghost const start: nat
    ghost var issued: seq<nat>   // the numbers its challenges carried

    /** Each challenge carried the number one step after the one before. */
    ghost predicate Valid()
      reads this, sqn
    {
      && sqn.Length == 6 && Value(sqn[..], 6) == After(start, |issued|)
      && forall i :: 0 <= i < |issued| ==> issued[i] == After(start, i)
    }

    constructor (first: seq<uint8>)
      requires |first| == 6
      ensures Valid() && fresh(sqn) && sqn[..] == first && issued == []
    {
      var a := new uint8[6](i requires 0 <= i < 6 => first[i]);
      sqn, start, issued := a, Value(first, 6), [];
      new;
      assert sqn[..] == first;
    }

    /** `gen_auth_info_answer`: AUTN carries the current number under AK,
        then AMF and MAC; the number is advanced afterwards. */
    method Challenge(ak: seq<byte>, amf: seq<byte>, mac: seq<byte>) returns (autn: seq<byte>)
      requires Valid() && |ak| == 6 && |amf| == 2 && |mac| == 8
      modifies this, sqn
      ensures Valid() && issued == old(issued) + [old(Value(sqn[..], 6))]
      ensures |autn| == 16 && autn[6..8] == amf && autn[8..] == mac
      ensures Embedded(autn, ak) == old(AsBytes(sqn[..]))
      ensures Value(sqn[..], 6) == Next(old(Value(sqn[..], 6)))
    {
      autn := Autn(sqn, ak, amf, mac);
      issued := issued + [Value(sqn[..], 6)];
      IncrementSqn(sqn, sqn);
    }
  }

  method Autn(sqn: array<uint8>, ak: seq<byte>, amf: seq<byte>, mac: seq<byte>) returns (autn: seq<byte>)
    requires sqn.Length == 6 && |ak| == 6 && |amf| == 2 && |mac| == 8
    ensures |autn| == 16 && autn[6..8] == amf && autn[8..] == mac
    ensures Embedded(autn, ak) == AsBytes(sqn[..])
  {
    autn := [];
    for i := 0 to 6
      invariant |autn| == i
      invariant forall j :: 0 <= j < i ==> autn[j] == sqn[j] as byte ^ ak[j]
    {
      autn := autn + [sqn[i] as byte ^ ak[i]];
    }
    autn := autn + amf + mac;
    forall i | 0 <= i < 6 ensures autn[i] ^ ak[i] == sqn[i] as byte { XorTwice(sqn[i] as byte, ak[i]); }
  }

  /** Whatever challenges a subscriber has been sent, those less than a period
      apart carried different numbers. */
  lemma SubscriberDistinct(u: Subscriber, i: nat, j: nat)
    requires u.Valid() && i < j < |u.issued| && j - i < SEQ_MAX * IND_MAX
    ensures u.issued[i] != u.issued[j]
  {
    WindowDistinct(u.start, i, j);
  }
}
