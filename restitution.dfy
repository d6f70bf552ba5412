/** What each player owes or is owed: the party balance shared out evenly,
    minus the player's own balance, truncated toward zero; then the players
    sorted by that amount, smallest (the largest debt) first. */
module Restitution {
  import opened Numbers
  import opened Extraction

  function Abs(x: int): nat {
    if x < 0 then -x else x
  }

  /** `Math.trunc(a / n)`: n times the quotient lies between 0 and a, less
      than n away from a. */
  function TruncDiv(a: int, n: int): (q: int)
    requires n > 0
    ensures a >= 0 ==> 0 <= a - n * q < n
    ensures a < 0 ==> -n < a - n * q <= 0
  {
    if a >= 0 then a / n else 0 - (-a) / n
  }

  lemma {:induction false} MulGrows(n: int, k: int)
    requires n > 0 && k >= 1
    ensures n * k >= n
    decreases k
  {
    if k > 1 {
      MulGrows(n, k - 1);
      assert n * k == n * (k - 1) + n;
    }
  }

  /** The only multiple of n strictly between -n and n is 0. */
  lemma MulNearZero(n: int, k: int)
    requires n > 0 && -n < n * k < n
    ensures k == 0
  {
    if k >= 1 {
      MulGrows(n, k);
      assert false;
    } else if k <= -1 {
      MulGrows(n, -k);
      assert false;
    }
  }

  /** The quotient never has the opposite sign of `a`. */
  lemma TruncDivSign(a: int, n: int)
    requires n > 0
    ensures TruncDiv(a, n) > 0 ==> a > 0
    ensures TruncDiv(a, n) < 0 ==> a < 0
  {
    var q := TruncDiv(a, n);
    if a >= 0 && q < 0 {
      MulGrows(n, -q);
      assert false;
    } else if a <= 0 && q > 0 {
      MulGrows(n, q);
      assert false;
    }
  }

  /** A quotient that is exact is returned as it is. */
  lemma TruncDivExact(m: int, n: int)
    requires n > 0
    ensures TruncDiv(n * m, n) == m
  {
    var q := TruncDiv(n * m, n);
    assert n * m - n * q == n * (m - q);
    MulNearZero(n, m - q);
  }

  function Sum(xs: seq<int>): int {
    if xs == [] then 0 else xs[0] + Sum(xs[1..])
  }

  predicate AllBalancesKnown(ps: seq<PlayerStats>) {
    forall k :: 0 <= k < |ps| ==> ps[k].balance.Int?
  }

  function Balances(ps: seq<PlayerStats>): (bs: seq<int>)
    requires AllBalancesKnown(ps)
    ensures |bs| == |ps| && forall k :: 0 <= k < |ps| ==> bs[k] == ps[k].balance.value
  {
    if ps == [] then [] else [ps[0].balance.value] + Balances(ps[1..])
  }

  function Restitutions(ps: seq<PlayerStats>): (rs: seq<int>)
    ensures |rs| == |ps| && forall k :: 0 <= k < |ps| ==> rs[k] == ps[k].restitution
  {
    if ps == [] then [] else [ps[0].restitution] + Restitutions(ps[1..])
  }

  /** `players.reduce((memo, v) => v.balance + memo, 0)` */
  function PartyBalance(ps: seq<PlayerStats>): int
    requires AllBalancesKnown(ps)
  {
    Sum(Balances(ps))
  }

  /** `Math.trunc(partyBalance / players.length - v.balance)`, that is the
      quotient (S - N*b) / N rounded toward zero. */
  function RestitutionOf(s: int, n: int, b: int): int
    requires n > 0
  {
    TruncDiv(s - n * b, n)
  }

  /** The `map` at lines 64-70: every record kept, with its restitution set
      to the quotient (S - N*b) / N rounded toward zero. */
  function WithRestitution(ps: seq<PlayerStats>): (r: seq<PlayerStats>)
    requires AllBalancesKnown(ps) && |ps| > 0
    ensures |r| == |ps|
    ensures forall k :: 0 <= k < |ps| ==> r[k] == ps[k].(restitution := r[k].restitution)
    ensures forall k :: 0 <= k < |ps| ==>
      var x := PartyBalance(ps) - |ps| * ps[k].balance.value;
      && (x >= 0 ==> 0 <= x - |ps| * r[k].restitution < |ps|)
      && (x < 0 ==> -|ps| < x - |ps| * r[k].restitution <= 0)
  {
    var s := PartyBalance(ps);
    seq(|ps|, k requires 0 <= k < |ps| => ps[k].(restitution := RestitutionOf(s, |ps|, ps[k].balance.value)))
  }

  /** The remainder the truncation drops, times n. */
  function Dropped(s: int, n: int, b: int): int
    requires n > 0
  {
    (s - n * b) - n * RestitutionOf(s, n, b)
  }

  function SumRestitutionOf(bs: seq<int>, s: int, n: int): int
    requires n > 0
  {
    if bs == [] then 0 else RestitutionOf(s, n, bs[0]) + SumRestitutionOf(bs[1..], s, n)
  }

  function SumDropped(bs: seq<int>, s: int, n: int): int
    requires n > 0
  {
    if bs == [] then 0 else Dropped(s, n, bs[0]) + SumDropped(bs[1..], s, n)
  }

  lemma DroppedExact(s: int, n: int, b: int, m: int)
    requires n > 0 && s == n * m
    ensures Dropped(s, n, b) == 0
  {
    var d := m - b;
    MulSub(n, m, b);
    assert s - n * b == n * d;
    TruncDivExact(d, n);
    assert RestitutionOf(s, n, b) == d;
  }

  lemma MulSub(n: int, a: int, b: int)
    ensures n * (a - b) == n * a - n * b
  {
  }

  lemma MulAdd(n: int, a: int, b: int)
    ensures n * (a + b) == n * a + n * b
    ensures (a + b) * n == a * n + b * n
  {
  }

  lemma {:induction false} SumDroppedBound(bs: seq<int>, s: int, n: int)
    requires n > 0
    ensures n * SumRestitutionOf(bs, s, n) == |bs| * s - n * Sum(bs) - SumDropped(bs, s, n)
    ensures Abs(SumDropped(bs, s, n)) <= |bs| * (n - 1)
  {
    if bs != [] {
      SumDroppedBound(bs[1..], s, n);
      var r0 := RestitutionOf(s, n, bs[0]);
      var rest := SumRestitutionOf(bs[1..], s, n);
      assert SumRestitutionOf(bs, s, n) == r0 + rest;
      MulAdd(n, r0, rest);
      MulAdd(n, bs[0], Sum(bs[1..]));
      MulAdd(n - 1, |bs[1..]|, 1);
      MulAdd(s, |bs[1..]|, 1);
    }
  }

  lemma {:induction false} SumDroppedExact(bs: seq<int>, s: int, n: int, m: int)
    requires n > 0 && s == n * m
    ensures SumDropped(bs, s, n) == 0
  {
    if bs != [] {
      SumDroppedExact(bs[1..], s, n, m);
      DroppedExact(s, n, bs[0], m);
    }
  }

  lemma {:induction false} SumRestitutionOfWith(ps: seq<PlayerStats>, j: nat)
    requires AllBalancesKnown(ps) && |ps| > 0 && j <= |ps|
    ensures Sum(Restitutions(WithRestitution(ps))[j..]) == SumRestitutionOf(Balances(ps)[j..], PartyBalance(ps), |ps|)
    decreases |ps| - j
  {
    var rs := Restitutions(WithRestitution(ps));
    var bs := Balances(ps);
    if j < |ps| {
      SumRestitutionOfWith(ps, j + 1);
      assert rs[j..][1..] == rs[j + 1..];
      assert bs[j..][1..] == bs[j + 1..];
    }
  }

  lemma MulBelow(n: int, a: int)
    requires n > 0 && n * a <= n * (n - 1)
    ensures a <= n - 1
  {
    if a >= n {
      MulGrows(n, a - n + 1);
      assert false;
    }
  }

  lemma ResidueOf(bs: seq<int>, s: int, n: int)
    requires n > 0 && |bs| == n && Sum(bs) == s
    ensures -n < SumRestitutionOf(bs, s, n) < n
    ensures s % n == 0 ==> SumRestitutionOf(bs, s, n) == 0
  {
    var r := SumRestitutionOf(bs, s, n);
    SumDroppedBound(bs, s, n);
    assert n * r == 0 - SumDropped(bs, s, n);
    MulAdd(n, r, 0 - r);
    MulBelow(n, r);
    MulBelow(n, 0 - r);
    if s % n == 0 {
      ModZero(s, n);
      SumDroppedExact(bs, s, n, s / n);
      MulNearZero(n, r);
    }
  }

  lemma ModZero(s: int, n: int)
    requires n > 0 && s % n == 0
    ensures s == n * (s / n)
  {
  }

  /** What the truncation leaves over: the restitutions add up to less than
      one per player either way, and to exactly 0 when the party balance is a
      multiple of the number of players.  The code has no rule for the rest. */
  lemma RestitutionResidue(ps: seq<PlayerStats>)
    requires AllBalancesKnown(ps) && |ps| > 0
    ensures -|ps| < Sum(Restitutions(WithRestitution(ps))) < |ps|
    ensures PartyBalance(ps) % |ps| == 0 ==> Sum(Restitutions(WithRestitution(ps))) == 0
  {
    var bs := Balances(ps);
    var rs := Restitutions(WithRestitution(ps));
    SumRestitutionOfWith(ps, 0);
    assert bs[0..] == bs;
    assert rs[0..] == rs;
    ResidueOf(bs, PartyBalance(ps), |ps|);
  }

  // ---- `.sort((a, b) => a.restitution - b.restitution)` ----

  predicate SortedByRestitution(s: seq<PlayerStats>) {
    forall i, j :: 0 <= i < j < |s| ==> s[i].restitution <= s[j].restitution
  }

  /** Before the first record whose key is not smaller, so that records with
      equal keys keep their order. */
  function Insert(x: PlayerStats, s: seq<PlayerStats>): seq<PlayerStats> {
    if s == [] || x.restitution <= s[0].restitution then [x] + s
    else [s[0]] + Insert(x, s[1..])
  }

  /** JavaScript's sort is stable; with this comparator its result is the
      stable ascending order by restitution. */
  function SortByRestitution(s: seq<PlayerStats>): seq<PlayerStats> {
    if s == [] then [] else Insert(s[0], SortByRestitution(s[1..]))
  }

  lemma {:induction false} InsertPerm(x: PlayerStats, s: seq<PlayerStats>)
    ensures multiset(Insert(x, s)) == multiset(s) + multiset{x}
  {
    if s != [] && x.restitution > s[0].restitution {
      InsertPerm(x, s[1..]);
      assert s == [s[0]] + s[1..];
    }
  }

  /** The sort keeps every record, as often as it occurs. */
  lemma {:induction false} SortPerm(s: seq<PlayerStats>)
    ensures multiset(SortByRestitution(s)) == multiset(s)
  {
    if s != [] {
      SortPerm(s[1..]);
      InsertPerm(s[0], SortByRestitution(s[1..]));
      assert s == [s[0]] + s[1..];
    }
  }

  lemma {:induction false} InsertSorted(x: PlayerStats, s: seq<PlayerStats>)
    requires SortedByRestitution(s)
    ensures SortedByRestitution(Insert(x, s))
  {
    if s != [] && x.restitution > s[0].restitution {
      InsertSorted(x, s[1..]);
      InsertAbove(x, s[1..], s[0].restitution);
      var t := Insert(x, s[1..]);
      assert Insert(x, s) == [s[0]] + t;
    }
  }

  /** A bound below x and below every record of s is below every record of the insertion. */
  lemma {:induction false} InsertAbove(x: PlayerStats, s: seq<PlayerStats>, b: int)
    requires b <= x.restitution && forall k :: 0 <= k < |s| ==> b <= s[k].restitution
    ensures forall k :: 0 <= k < |Insert(x, s)| ==> b <= Insert(x, s)[k].restitution
  {
    if s != [] && x.restitution > s[0].restitution {
      InsertAbove(x, s[1..], b);
      var t := Insert(x, s[1..]);
      assert Insert(x, s) == [s[0]] + t;
    }
  }

  lemma {:induction false} SortSorted(s: seq<PlayerStats>)
    ensures SortedByRestitution(SortByRestitution(s))
  {
    if s != [] {
      SortSorted(s[1..]);
      InsertSorted(s[0], SortByRestitution(s[1..]));
    }
  }

  /** The records with restitution r, in order. */
  function WithKey(s: seq<PlayerStats>, r: int): seq<PlayerStats> {
    if s == [] then []
    else if s[0].restitution == r then [s[0]] + WithKey(s[1..], r)
    else WithKey(s[1..], r)
  }

  lemma {:induction false} WithKeyConcat(a: seq<PlayerStats>, b: seq<PlayerStats>, r: int)
    ensures WithKey(a + b, r) == WithKey(a, r) + WithKey(b, r)
  {
    if a == [] {
      assert a + b == b;
    } else {
      var c := a + b;
      assert c[0] == a[0] && c[1..] == a[1..] + b;
      WithKeyConcat(a[1..], b, r);
      var tail := WithKey(a[1..], r) + WithKey(b, r);
      if a[0].restitution == r {
        assert WithKey(c, r) == [a[0]] + tail;
        assert WithKey(a, r) == [a[0]] + WithKey(a[1..], r);
      } else {
        assert WithKey(c, r) == tail;
        assert WithKey(a, r) == WithKey(a[1..], r);
      }
    }
  }

  lemma {:induction false} InsertWithKey(x: PlayerStats, s: seq<PlayerStats>, r: int)
    requires SortedByRestitution(s)
    ensures WithKey(Insert(x, s), r) == WithKey([x] + s, r)
  {
    if s != [] && x.restitution > s[0].restitution {
      InsertWithKey(x, s[1..], r);
      WithKeyConcat([x], s[1..], r);
      WithKeyConcat([s[0]], Insert(x, s[1..]), r);
      WithKeyConcat([x], s, r);
      WithKeyConcat([s[0]], s[1..], r);
      assert s == [s[0]] + s[1..];
      if x.restitution == r {
        // s[0] sorts before x and has a smaller key, so it is not kept either way
        assert s[0].restitution != r;
      }
    } else {
      assert Insert(x, s) == [x] + s;
    }
  }

  /** Stability: for each restitution value, the records that carry it come
      out in the order they went in. */
  lemma {:induction false} SortStable(s: seq<PlayerStats>, r: int)
    ensures WithKey(SortByRestitution(s), r) == WithKey(s, r)
  {
    if s != [] {
      SortStable(s[1..], r);
      SortSorted(s[1..]);
      InsertWithKey(s[0], SortByRestitution(s[1..]), r);
      WithKeyConcat([s[0]], SortByRestitution(s[1..]), r);
      WithKeyConcat([s[0]], s[1..], r);
      assert s == [s[0]] + s[1..];
    }
  }

  lemma {:induction false} InsertSum(x: PlayerStats, s: seq<PlayerStats>)
    ensures Sum(Restitutions(Insert(x, s))) == x.restitution + Sum(Restitutions(s))
  {
    if s == [] || x.restitution <= s[0].restitution {
      assert ([x] + s)[1..] == s;
    } else {
      InsertSum(x, s[1..]);
      assert ([s[0]] + Insert(x, s[1..]))[1..] == Insert(x, s[1..]);
    }
  }

  /** The sort neither adds nor drops any restitution. */
  lemma {:induction false} SortSum(s: seq<PlayerStats>)
    ensures Sum(Restitutions(SortByRestitution(s))) == Sum(Restitutions(s))
  {
    if s != [] {
      SortSum(s[1..]);
      InsertSum(s[0], SortByRestitution(s[1..]));
    }
  }

  /** The players as the matching loop receives them. */
  function SortedPlayers(ps: seq<PlayerStats>): seq<PlayerStats>
    requires AllBalancesKnown(ps) && |ps| > 0
  {
    SortByRestitution(WithRestitution(ps))
  }
}
