/** How a section read as a list accounts for each of its lines. */
module BulletLaws {
  import opened Text
  import opened Codec
  import opened CodecShape

  // ---------------------------------------------------------------- which lines start and stray

  predicate Increasing(xs: seq<nat>) { forall i, j | 0 <= i < j < |xs| :: xs[i] < xs[j] }

  predicate OpenAt(content: seq<string>, i: nat)
    requires i <= |content|
  {
    exists j | 0 <= j < i :: IsDash(content[j])
  }

  /** The line belongs to no bullet: it is not blank, opens none and continues none. */
  predicate IsStray(content: seq<string>, i: nat)
    requires i < |content|
  {
    !IsDash(content[i]) && !Blank(content[i]) && !(OpenAt(content, i) && "  " <= content[i])
  }

  lemma {:induction false} NextDashFirst(content: seq<string>, i: nat)
    requires i <= |content|
    ensures forall k | i <= k < NextDash(content, i) :: !IsDash(content[k])
    decreases |content| - i
  {
    if i < |content| && !IsDash(content[i]) { NextDashFirst(content, i + 1); }
  }

  lemma {:induction false} IncreasingCons(x: nat, xs: seq<nat>)
    requires Increasing(xs) && forall y | y in xs :: x < y
    ensures Increasing([x] + xs)
  {
    var all := [x] + xs;
    forall i, j | 0 <= i < j < |all| ensures all[i] < all[j] {
      assert all[j] == xs[j - 1] && xs[j - 1] in xs;
      if i > 0 { assert all[i] == xs[i - 1]; }
    }
  }

  lemma {:induction false} StartsFrom(content: seq<string>, i: nat, base: nat)
    requires i <= |content| && (i < |content| ==> IsDash(content[i]))
    ensures var starts := Starts(content, i, base);
            && Increasing(starts)
            && (forall x | x in starts :: base + i <= x < base + |content| && IsDash(content[x - base]))
            && (forall k | i <= k < |content| && IsDash(content[k]) :: base + k in starts)
    decreases |content| - i
  {
    hide IsDash, Increasing;
    if i < |content| {
      var n := NextDash(content, i + 1);
      StartsFrom(content, n, base);
      NextDashFirst(content, i + 1);
      var rest := Starts(content, n, base);
      IncreasingCons(base + i, rest);
      assert Starts(content, i, base) == [base + i] + rest;
      forall k | i <= k < |content| && IsDash(content[k]) ensures base + k in Starts(content, i, base) {
        assert k == i || k >= n;
      }
    } else {
      NoneIncreasing();
    }
  }

  lemma {:induction false} NoneIncreasing()
    ensures Increasing([])
  {}

  lemma {:induction false} OpenNext(content: seq<string>, i: nat)
    requires i < |content|
    ensures OpenAt(content, i + 1) <==> OpenAt(content, i) || IsDash(content[i])
  {}

  lemma {:induction false} StrayFrom(content: seq<string>, i: nat, base: nat, open: bool)
    requires i <= |content| && (open <==> OpenAt(content, i))
    ensures var stray := Stray(content, i, base, open);
            && Increasing(stray)
            && (forall x | x in stray :: base + i <= x < base + |content| && IsStray(content, x - base))
            && (forall k | i <= k < |content| && IsStray(content, k) :: base + k in stray)
    decreases |content| - i
  {
    hide IsDash, Blank, Increasing, OpenAt;
    if i < |content| {
      OpenNext(content, i);
      var next := open || IsDash(content[i]);
      StrayFrom(content, i + 1, base, next);
      var rest := Stray(content, i + 1, base, next);
      IncreasingCons(base + i, rest);
      assert Stray(content, i, base, open) == if IsStray(content, i) then [base + i] + rest else rest;
    } else {
      assert Increasing([]) by { NoneIncreasing(); }
    }
  }

  // ---------------------------------------------------------------- what the items keep

  function NonBlank(ls: seq<string>): seq<string> {
    if ls == [] then [] else (if Blank(ls[0]) then [] else [ls[0]]) + NonBlank(ls[1..])
  }

  /** The lines with content that the items hold, in order. */
  function Kept(items: seq<string>): seq<string> {
    if items == [] then [] else NonBlank(Lines(items[0])) + Kept(items[1..])
  }

  /** The content that lines i to n carry into bullets, in order; open says whether one is above. */
  function Carried(content: seq<string>, i: nat, n: nat, open: bool): seq<string>
    requires i <= n <= |content|
    decreases n - i
  {
    if i == n then []
    else if IsDash(content[i]) then NonBlank([content[i][2..]]) + Carried(content, i + 1, n, true)
    else if !Blank(content[i]) && open && "  " <= content[i] then
      [content[i][2..]] + Carried(content, i + 1, n, open)
    else Carried(content, i + 1, n, open)
  }

  /** The lines from i on with content after their two marker characters. */
  function Payloads(content: seq<string>, i: nat): seq<string>
    requires i <= |content|
    decreases |content| - i
  {
    if i == |content| then []
    else if |content[i]| < 2 then Payloads(content, i + 1)
    else NonBlank([content[i][2..]]) + Payloads(content, i + 1)
  }

  lemma {:induction false} NonBlankConcat(a: seq<string>, b: seq<string>)
    ensures NonBlank(a + b) == NonBlank(a) + NonBlank(b)
  {
    hide Blank;
    if a == [] {
      assert a + b == b;
    } else {
      NonBlankConcat(a[1..], b);
      assert (a + b)[1..] == a[1..] + b;
      Assoc(if Blank(a[0]) then [] else [a[0]], NonBlank(a[1..]), NonBlank(b));
    }
  }

  lemma {:induction false} AllBlank(ls: seq<string>)
    requires forall k | 0 <= k < |ls| :: ls[k] == ""
    ensures NonBlank(ls) == []
  {
    if ls != [] { AllBlank(ls[1..]); }
  }

  lemma {:induction false} TrimKeeps(s: string)
    ensures NonBlank(Lines(TrimNL(s))) == NonBlank(Lines(s))
  {
    hide Blank, NonBlank, TrimNL;
    var i, j := TrimNLLines(s);
    var ls := Lines(s);
    assert ls == ls[..i] + ls[i..j] + ls[j..];
    NonBlankConcat(ls[..i] + ls[i..j], ls[j..]);
    NonBlankConcat(ls[..i], ls[i..j]);
    AllBlank(ls[..i]);
    AllBlank(ls[j..]);
  }

  lemma {:induction false} ContinuationKeeps(l: string)
    ensures NonBlank(Continuation(l)) == if !Blank(l) && "  " <= l then [l[2..]] else []
  {
    if "  " <= l { IndentBlank(l); }
    assert Blank("");
  }

  lemma {:induction false} NoneKept()
    ensures NonBlank([]) == []
  {}

  lemma {:induction false} ContinuationsKeep(content: seq<string>, i: nat, n: nat)
    requires i <= n <= |content| && forall k | i <= k < n :: !IsDash(content[k])
    ensures NonBlank(Continuations(content, i, n)) == Carried(content, i, n, true)
    decreases n - i
  {
    hide IsDash, Blank, NonBlank, Continuation;
    NoneKept();
    if i < n {
      ContinuationsKeep(content, i + 1, n);
      ContinuationKeeps(content[i]);
      NonBlankConcat(Continuation(content[i]), Continuations(content, i + 1, n));
    }
  }

  lemma {:induction false} CarriedConcat(content: seq<string>, i: nat, n: nat, m: nat)
    requires i <= n <= m <= |content|
    ensures Carried(content, i, m, true) == Carried(content, i, n, true) + Carried(content, n, m, true)
    decreases n - i
  {
    hide IsDash, Blank, NonBlank;
    if i < n { CarriedConcat(content, i + 1, n, m); }
  }

  /** An item holds exactly what the lines of its bullet carry. */
  lemma {:induction false} ItemKeeps(content: seq<string>, i: nat, n: nat)
    requires i < n <= |content| && IsDash(content[i]) && AllOneLine(content)
    requires forall k | i + 1 <= k < n :: !IsDash(content[k])
    ensures NonBlank(Lines(ItemAt(content, i, n))) == Carried(content, i, n, true)
  {
    hide NonBlank, Blank;
    var first, rest := [content[i][2..]], Continuations(content, i + 1, n);
    ContinuationsShape(content, i + 1, n);
    LinesJoin(first + rest);
    TrimKeeps(Join(first + rest));
    NonBlankConcat(first, rest);
    ContinuationsKeep(content, i + 1, n);
  }

  lemma {:induction false} ItemsKeep(content: seq<string>, i: nat)
    requires i <= |content| && (i < |content| ==> IsDash(content[i])) && AllOneLine(content)
    ensures Kept(Items(content, i)) == Carried(content, i, |content|, true)
    decreases |content| - i
  {
    hide NonBlank, ItemAt, Blank;
    if i < |content| {
      var n := NextDash(content, i + 1);
      ItemsKeep(content, n);
      NextDashFirst(content, i + 1);
      ItemKeeps(content, i, n);
      CarriedConcat(content, i, n, |content|);
      assert Items(content, i)[1..] == Items(content, n);
    }
  }

  lemma {:induction false} NothingYet(content: seq<string>, i: nat)
    requires i <= |content|
    ensures Carried(content, i, |content|, false) == Carried(content, NextDash(content, i), |content|, true)
    decreases |content| - i
  {
    hide IsDash, Blank;
    if i < |content| && !IsDash(content[i]) { NothingYet(content, i + 1); }
  }

  lemma {:induction false} AllCarried(content: seq<string>, i: nat, base: nat, open: bool)
    requires i <= |content| && Stray(content, i, base, open) == [] && AllOneLine(content)
    ensures Carried(content, i, |content|, open) == Payloads(content, i)
    decreases |content| - i
  {
    hide NonBlank;
    if i < |content| {
      var l := content[i];
      if IsDash(l) {
        AllCarried(content, i + 1, base, true);
      } else {
        AllCarried(content, i + 1, base, open);
        PayloadKept(l);
      }
    }
  }

  lemma {:induction false} PayloadKept(l: string)
    ensures |l| >= 2 && Blank(l) ==> NonBlank([l[2..]]) == []
    ensures !Blank(l) && "  " <= l ==> NonBlank([l[2..]]) == [l[2..]]
  {
    if "  " <= l { IndentBlank(l); }
  }

  // ---------------------------------------------------------------- which item a line goes to

  /** The line after the last one of item n. */
  function ItemEnd(content: seq<string>, starts: seq<nat>, base: nat, n: nat): int
    requires n < |starts|
  {
    if n + 1 < |starts| then starts[n + 1] - base else |content|
  }

  /** Item n is the bullet at starts[n]: its own line and those up to the next bullet, and no other. */
  ghost predicate ItemOwnsLines(content: seq<string>, b: Bullets, base: nat, n: nat)
    requires n < |b.items| == |b.starts|
  {
    var at, end := b.starts[n] - base, ItemEnd(content, b.starts, base, n);
    && 0 <= at < end <= |content| && IsDash(content[at])
    && b.items[n] == ItemAt(content, at, end)
    && NonBlank(Lines(b.items[n])) == Carried(content, at, end, true)
  }

  lemma {:induction false} ItemsOwnLines(content: seq<string>, i: nat, base: nat, stray: seq<nat>, n: nat)
    requires i <= |content| && (i < |content| ==> IsDash(content[i])) && AllOneLine(content)
    requires |Items(content, i)| == |Starts(content, i, base)| && n < |Items(content, i)|
    ensures ItemOwnsLines(content, Bullets(Items(content, i), Starts(content, i, base), stray), base, n)
    decreases |content| - i
  {
    hide NonBlank, ItemAt, IsDash, Carried;
    var next := NextDash(content, i + 1);
    BulletsPair(content, next, base);
    if n == 0 {
      NextDashFirst(content, i + 1);
      ItemKeeps(content, i, next);
    } else {
      ItemsOwnLines(content, next, base, stray, n - 1);
    }
  }

  lemma {:induction false} StartsAll(content: seq<string>, base: nat)
    ensures var starts := ScanBullets(content, base).starts;
            && Increasing(starts)
            && forall x :: x in starts <==> base <= x < base + |content| && IsDash(content[x - base])
  {
    hide IsDash, Increasing, Starts, Items, Stray;
    var n := NextDash(content, 0);
    NextDashFirst(content, 0);
    StartsFrom(content, n, base);
    forall x: nat | base <= x < base + |content| && IsDash(content[x - base])
      ensures x in Starts(content, n, base)
    {
      assert base + (x - base) == x && x - base >= n;
    }
  }

  lemma {:induction false} StrayAll(content: seq<string>, base: nat)
    ensures var stray := ScanBullets(content, base).stray;
            && Increasing(stray)
            && forall x :: x in stray <==> base <= x < base + |content| && IsStray(content, x - base)
  {
    hide IsStray, Increasing, Starts, Items, Stray, NextDash;
    StrayFrom(content, 0, base, false);
    forall x: nat | base <= x < base + |content| && IsStray(content, x - base)
      ensures x in Stray(content, 0, base, false)
    {
      assert base + (x - base) == x;
    }
  }

  /** Every line of a list section goes to exactly one place. Bullets and strays are listed by line,
      in order; item n is the bullet at starts[n] and holds exactly what the lines from there to the
      next bullet carry; a line before the first bullet is blank or stray. With no stray line nothing
      but blanks is lost. */
  lemma {:induction false} BulletsPartition(content: seq<string>, base: nat)
    requires AllOneLine(content)
    ensures var b := ScanBullets(content, base);
            && |b.items| == |b.starts| && Increasing(b.starts) && Increasing(b.stray)
            && (forall x :: x in b.starts <==> base <= x < base + |content| && IsDash(content[x - base]))
            && (forall x :: x in b.stray <==> base <= x < base + |content| && IsStray(content, x - base))
            && (forall n | 0 <= n < |b.items| :: ItemOwnsLines(content, b, base, n))
            && (forall k | 0 <= k < |content| && (b.starts == [] || base + k < b.starts[0]) ::
                  Blank(content[k]) || base + k in b.stray)
            && Kept(b.items) == Carried(content, 0, |content|, false)
            && (b.stray == [] ==> Kept(b.items) == Payloads(content, 0))
  {
    hide IsDash, IsStray, Increasing, Kept, Carried, Items, Payloads, ItemOwnsLines, Blank;
    var n := NextDash(content, 0);
    BulletsPair(content, n, base);
    StartsFrom(content, n, base);
    NextDashFirst(content, 0);
    StrayFrom(content, 0, base, false);
    ItemsKeep(content, n);
    NothingYet(content, 0);
    var b := ScanBullets(content, base);
    if b.stray == [] { AllCarried(content, 0, base, false); }
    StartsAll(content, base);
    StrayAll(content, base);
    forall i | 0 <= i < |b.items| ensures ItemOwnsLines(content, b, base, i) {
      ItemsOwnLines(content, n, base, b.stray, i);
    }
    forall k | 0 <= k < |content| && (b.starts == [] || base + k < b.starts[0])
      ensures Blank(content[k]) || base + k in b.stray
    {
      assert k < n by { FirstStart(content, n, base); }
      EarlyLine(content, n, k);
    }
  }

  lemma {:induction false} FirstStart(content: seq<string>, n: nat, base: nat)
    requires n <= |content| && (n < |content| ==> IsDash(content[n]))
    ensures Starts(content, n, base) == [] <==> n == |content|
    ensures n < |content| ==> Starts(content, n, base)[0] == base + n
  {}

  /** Above the first bullet a line that is not blank is stray. */
  lemma {:induction false} EarlyLine(content: seq<string>, n: nat, k: nat)
    requires k < n <= |content| && forall j | 0 <= j < n :: !IsDash(content[j])
    ensures Blank(content[k]) || IsStray(content, k)
  {
    hide IsDash, Blank;
  }
}
