/** Version numbers: how two published versions compare. */
module Versions {
  import opened Schema
  import opened Text

  const MAX_INT := 0x8000_0000_0000_0000

  predicate AllDigits(s: string) { s != "" && forall i | 0 <= i < |s| :: IsDigit(s[i]) }

  function Value(s: string): nat
    requires forall i | 0 <= i < |s| :: IsDigit(s[i])
  {
    if s == "" then 0
    else
      assert IsDigit(s[|s| - 1]);
      Value(s[..|s| - 1]) * 10 + (s[|s| - 1] as int - '0' as int)
  }

  /** strconv.Atoi on a 64-bit platform. */
  function Atoi(s: string): Option<int> {
    var signed := s != "" && (s[0] == '+' || s[0] == '-');
    var body := if signed then s[1..] else s;
    if !AllDigits(body) then None
    else
      var n := Value(body);
      if signed && s[0] == '-' then if n <= MAX_INT then Option<int>.Some(-(n as int)) else None
      else if n < MAX_INT then Some(n) else None
  }

  /** strings.Split(s, "."). */
  function Parts(s: string): (r: seq<string>)
    ensures r != []
  {
    if s == "" then [""]
    else
      var r := Parts(s[1..]);
      if s[0] == '.' then [""] + r else [[s[0]] + r[0]] + r[1..]
  }

  datatype Triple = Triple(major: nat, minor: nat, patch: nat)
  {
    function At(i: nat): nat
      requires i < 3
    {
      if i == 0 then major else if i == 1 then minor else patch
    }
  }

  predicate Natural(p: string) { Atoi(p).Some? && Atoi(p).value >= 0 }

  function Parse(v: string): Option<Triple> {
    var ps := Parts(v);
    if |ps| == 3 && Natural(ps[0]) && Natural(ps[1]) && Natural(ps[2]) then
      Some(Triple(Atoi(ps[0]).value, Atoi(ps[1]).value, Atoi(ps[2]).value))
    else None
  }

  method ParseVersion(v: string) returns (r: Option<Triple>)
    ensures r == Parse(v)
  {
    hide Atoi, Parts;
    var out: seq<nat> := [];
    var parts := Parts(v);
    if |parts| != 3 { return None; }
    for i := 0 to 3
      invariant |out| == i
      invariant forall k | 0 <= k < i :: Natural(parts[k]) && out[k] == Atoi(parts[k]).value
    {
      var n := Atoi(parts[i]);
      if n == None || n.value < 0 { return None; }
      out := out + [n.value];
    }
    return Some(Triple(out[0], out[1], out[2]));
  }

  predicate Below(a: Triple, b: Triple) {
    || a.major < b.major
    || (a.major == b.major && (a.minor < b.minor || (a.minor == b.minor && a.patch < b.patch)))
  }

  /** -1, 0 or 1, or nothing when either side does not parse. */
  function Compare(a: string, b: string): Option<int> {
    match (Parse(a), Parse(b))
    case (Some(x), Some(y)) => Some(if Below(x, y) then -1 else if Below(y, x) then 1 else 0)
    case _ => None
  }

  method CompareVersions(a: string, b: string) returns (r: Option<int>)
    ensures r == Compare(a, b)
  {
    hide Parse;
    var pa := ParseVersion(a);
    if pa == None { return None; }
    var pb := ParseVersion(b);
    if pb == None { return None; }
    for i := 0 to 3
      invariant forall k | 0 <= k < i :: pa.value.At(k) == pb.value.At(k)
    {
      if pa.value.At(i) != pb.value.At(i) {
        assert i > 0 ==> pa.value.At(0) == pb.value.At(0);
        assert i > 1 ==> pa.value.At(1) == pb.value.At(1);
        if pa.value.At(i) < pb.value.At(i) { return Some(-1); }
        return Some(1);
      }
    }
    assert pa.value.At(0) == pb.value.At(0) && pa.value.At(1) == pb.value.At(1) && pa.value.At(2) == pb.value.At(2);
    return Some(0);
  }

  /** a is numerically at most b. */
  predicate AtMost(a: string, b: string) { Compare(a, b).Some? && Compare(a, b).value <= 0 }

  /** On versions that parse, the comparison is a total preorder, and its converse flips the sign. */
  lemma {:induction false} CompareIsPreorder(a: string, b: string, c: string)
    requires Parse(a).Some? && Parse(b).Some? && Parse(c).Some?
    ensures AtMost(a, b) || AtMost(b, a)
    ensures AtMost(a, b) && AtMost(b, c) ==> AtMost(a, c)
    ensures Compare(a, b).value == -Compare(b, a).value
    ensures AtMost(a, b) && AtMost(b, a) <==> Parse(a) == Parse(b)
  {
    hide Parse;
  }

  /** Two spellings of one version compare equal although they are different strings. */
  lemma {:induction false} SpellingsCollide()
    ensures Compare("1.0.0", "1.0.00") == Some(0) && "1.0.0" != "1.0.00"
  {
    hide Parse, Atoi;
    Digits("0", 0);
    Digits("1", 1);
    Digits("00", 0);
    ParsesTo("1", "0", "0", 1, 0, 0);
    ParsesTo("1", "0", "00", 1, 0, 0);
    assert "1" + "." + "0" + "." + "0" == "1.0.0";
    assert "1" + "." + "0" + "." + "00" == "1.0.00";
    assert |"1.0.0"| != |"1.0.00"|;
  }

  lemma {:induction false} Digits(s: string, n: nat)
    requires s in ["0", "1", "00"] && n == if s == "1" then 1 else 0
    ensures Atoi(s) == Some(n)
  {
    assert s[0] == '0' || s[0] == '1';
    assert Value("") == 0;
    if s == "00" {
      assert s[..1] == "0" && "0"[..0] == "";
      assert Value("0") == 0;
    } else {
      assert s[..0] == "";
    }
  }

  lemma {:induction false} PartsJoin(p: string, rest: string)
    requires forall i | 0 <= i < |p| :: p[i] != '.'
    ensures Parts(p + "." + rest) == [p] + Parts(rest)
  {
    var s := p + "." + rest;
    if p == "" {
      assert s[1..] == rest;
    } else {
      PartsJoin(p[1..], rest);
      assert s[1..] == p[1..] + "." + rest;
      assert [p[0]] + p[1..] == p;
    }
  }

  lemma {:induction false} PartsOne(p: string)
    requires forall i | 0 <= i < |p| :: p[i] != '.'
    ensures Parts(p) == [p]
  {
    if p != "" {
      PartsOne(p[1..]);
      assert [p[0]] + p[1..] == p;
    }
  }

  /** A version of three dotless parts parses to their numbers. */
  lemma {:induction false} ParsesTo(a: string, b: string, c: string, x: nat, y: nat, z: nat)
    requires forall i | 0 <= i < |a| :: a[i] != '.'
    requires forall i | 0 <= i < |b| :: b[i] != '.'
    requires forall i | 0 <= i < |c| :: c[i] != '.'
    requires Atoi(a) == Some(x) && Atoi(b) == Some(y) && Atoi(c) == Some(z)
    ensures Parse(a + "." + b + "." + c) == Some(Triple(x, y, z))
  {
    hide Atoi;
    assert a + "." + b + "." + c == a + "." + (b + "." + c);
    PartsJoin(a, b + "." + c);
    PartsJoin(b, c);
    PartsOne(c);
  }
}
