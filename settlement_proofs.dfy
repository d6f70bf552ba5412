/** What the matching loop guarantees, as written and as evidently intended. */
module SettlementProofs {
  import opened Wrappers
  import opened Extraction
  import opened Restitution
  import opened Transactions
  import opened Settlement

  lemma {:induction false} SumUpdate(s: seq<int>, k: nat, v: int)
    requires k < |s|
    ensures Sum(s[k := v]) == Sum(s) - s[k] + v
  {
    if k > 0 {
      assert s[k := v][1..] == s[1..][k - 1 := v];
      SumUpdate(s[1..], k - 1, v);
    } else {
      assert s[k := v][1..] == s[1..];
    }
  }

  // ---- One debtor's inner loop ----

  /** Money changes hands but is neither made nor lost. */
  lemma {:induction false} ScanConserves(rest: seq<int>, ord: seq<nat>, names: seq<string>, p: nat, j: nat, m: Entries)
    requires |names| == |rest| && p < |rest| && Fits(ord, |rest|) && j <= |ord|
    ensures Sum(Scan(rest, ord, names, p, j, m).rest) == Sum(rest)
    decreases |ord| - j
  {
    if j < |ord| {
      var q := ord[j];
      if rest[q] <= 0 {
        ScanSkip(rest, ord, names, p, j, m);
        ScanConserves(rest, ord, names, p, j + 1, m);
      } else {
        var amount := Min(0 - rest[p], rest[q]);
        var r1 := rest[p := rest[p] + amount];
        var r2 := r1[q := r1[q] - amount];
        var m' := Put(m, names[q], amount);
        ScanPay(rest, ord, names, p, j, m, amount, r2, m');
        SumUpdate(rest, p, rest[p] + amount);
        SumUpdate(r1, q, r1[q] - amount);
        assert Sum(r2) == Sum(rest);
        if r2[p] != 0 {
          ScanConserves(r2, ord, names, p, j + 1, m');
        }
      }
    }
  }

  /** Nobody is pushed across zero: the debtor pays at most what it owes,
      each creditor receives at most what it is owed, and every other player
      who is owed nothing keeps its restitution. */
  lemma {:induction false} ScanSigns(rest: seq<int>, ord: seq<nat>, names: seq<string>, p: nat, j: nat, m: Entries)
    requires |names| == |rest| && p < |rest| && Fits(ord, |rest|) && j <= |ord|
    requires rest[p] < 0
    ensures var r := Scan(rest, ord, names, p, j, m).rest;
      && rest[p] <= r[p] <= 0
      && (forall k :: 0 <= k < |rest| && k != p && rest[k] <= 0 ==> r[k] == rest[k])
      && (forall k :: 0 <= k < |rest| && rest[k] > 0 ==> 0 <= r[k] <= rest[k])
    decreases |ord| - j
  {
    if j < |ord| {
      var q := ord[j];
      if rest[q] <= 0 {
        ScanSkip(rest, ord, names, p, j, m);
        ScanSigns(rest, ord, names, p, j + 1, m);
      } else {
        var amount := Min(0 - rest[p], rest[q]);
        var r1 := rest[p := rest[p] + amount];
        var r2 := r1[q := r1[q] - amount];
        var m' := Put(m, names[q], amount);
        ScanPay(rest, ord, names, p, j, m, amount, r2, m');
        if r2[p] != 0 {
          ScanSigns(r2, ord, names, p, j + 1, m');
        }
      }
    }
  }

  /** A debtor still in debt after the loop has taken everything the players
      from position j of the array were owed. */
  lemma {:induction false} ScanExhausts(rest: seq<int>, ord: seq<nat>, names: seq<string>, p: nat, j: nat, m: Entries)
    requires |names| == |rest| && p < |rest| && Fits(ord, |rest|) && j <= |ord|
    requires rest[p] < 0
    ensures var r := Scan(rest, ord, names, p, j, m).rest;
      r[p] < 0 ==> forall t :: j <= t < |ord| ==> r[ord[t]] <= 0
    decreases |ord| - j
  {
    if j < |ord| {
      var q := ord[j];
      if rest[q] <= 0 {
        ScanSkip(rest, ord, names, p, j, m);
        ScanExhausts(rest, ord, names, p, j + 1, m);
        ScanSigns(rest, ord, names, p, j + 1, m);
        var r := Scan(rest, ord, names, p, j + 1, m).rest;
        assert r[q] <= 0;
      } else {
        var amount := Min(0 - rest[p], rest[q]);
        var r1 := rest[p := rest[p] + amount];
        var r2 := r1[q := r1[q] - amount];
        var m' := Put(m, names[q], amount);
        ScanPay(rest, ord, names, p, j, m, amount, r2, m');
        if r2[p] != 0 {
          assert amount == rest[q] && q != p && r2[q] == 0;
          ScanExhausts(r2, ord, names, p, j + 1, m');
          ScanSigns(r2, ord, names, p, j + 1, m');
          var r := Scan(r2, ord, names, p, j + 1, m').rest;
          assert r[q] <= 0;
        }
      }
    }
  }

  predicate DistinctNames(names: seq<string>) {
    forall a, b :: 0 <= a < b < |names| ==> names[a] != names[b]
  }

  lemma DistinctAt(names: seq<string>, a: nat, b: nat)
    requires DistinctNames(names) && a < |names| && b < |names| && a != b
    ensures names[a] != names[b]
  {
    if a > b {
      assert names[b] != names[a];
    }
  }

  /** Every amount of the map is positive and at most b. */
  predicate AmountsWithin(m: Entries, b: int) {
    forall e :: e in m ==> 0 < e.1 <= b
  }

  /** No transfer of the map goes to the payer. */
  predicate PaysOthers(m: Entries, payer: string) {
    forall e :: e in m ==> e.0 != payer
  }

  /** Each amount the debtor records is positive and at most what it owed
      when the loop started, whatever the names are. */
  lemma {:induction false} ScanAmounts(rest: seq<int>, ord: seq<nat>, names: seq<string>, p: nat, j: nat, m: Entries, b: int)
    requires |names| == |rest| && p < |rest| && Fits(ord, |rest|) && j <= |ord|
    requires rest[p] < 0 && 0 - rest[p] <= b && AmountsWithin(m, b)
    ensures AmountsWithin(Scan(rest, ord, names, p, j, m).trans, b)
    decreases |ord| - j
  {
    if j < |ord| {
      var q := ord[j];
      if rest[q] <= 0 {
        ScanSkip(rest, ord, names, p, j, m);
        ScanAmounts(rest, ord, names, p, j + 1, m, b);
      } else {
        var amount := Min(0 - rest[p], rest[q]);
        var r1 := rest[p := rest[p] + amount];
        var r2 := r1[q := r1[q] - amount];
        var m' := Put(m, names[q], amount);
        ScanPay(rest, ord, names, p, j, m, amount, r2, m');
        PutEntries(m, names[q], amount);
        assert AmountsWithin(m', b);
        if r2[p] != 0 {
          ScanAmounts(r2, ord, names, p, j + 1, m', b);
        }
      }
    }
  }

  /** With distinct names the debtor never records a transfer to itself. */
  lemma {:induction false} ScanEntries(rest: seq<int>, ord: seq<nat>, names: seq<string>, p: nat, j: nat, m: Entries)
    requires |names| == |rest| && p < |rest| && Fits(ord, |rest|) && j <= |ord|
    requires rest[p] < 0 && DistinctNames(names) && PaysOthers(m, names[p])
    ensures PaysOthers(Scan(rest, ord, names, p, j, m).trans, names[p])
    decreases |ord| - j
  {
    if j < |ord| {
      var q := ord[j];
      if rest[q] <= 0 {
        ScanSkip(rest, ord, names, p, j, m);
        ScanEntries(rest, ord, names, p, j + 1, m);
      } else {
        var amount := Min(0 - rest[p], rest[q]);
        var r1 := rest[p := rest[p] + amount];
        var r2 := r1[q := r1[q] - amount];
        var m' := Put(m, names[q], amount);
        ScanPay(rest, ord, names, p, j, m, amount, r2, m');
        PutEntries(m, names[q], amount);
        DistinctAt(names, q, p);
        if r2[p] != 0 {
          ScanEntries(r2, ord, names, p, j + 1, m');
        }
      }
    }
  }

  /** With distinct names, the map's entry for a player k other than the
      debtor is what k was paid: if k's restitution changed, k is listed with
      exactly the change, which is positive and at most what k was owed;
      otherwise k keeps the entry it had. */
  lemma ScanRecords(rest: seq<int>, ord: seq<nat>, names: seq<string>, p: nat, j: nat, m: Entries, k: nat)
    requires |names| == |rest| && p < |rest| && Fits(ord, |rest|) && j <= |ord|
    requires rest[p] < 0 && DistinctNames(names) && k < |rest| && k != p
    ensures var s := Scan(rest, ord, names, p, j, m);
      && Get(s.trans, names[k]) == (if s.rest[k] == rest[k] then Get(m, names[k]) else Some(rest[k] - s.rest[k]))
      && (s.rest[k] != rest[k] ==> 0 < rest[k] - s.rest[k] <= rest[k])
  {
    ScanEntryOf(rest, ord, names, p, j, m, k);
    ScanSigns(rest, ord, names, p, j, m);
    if rest[k] <= 0 {
      ScanKeeps(rest, ord, names, p, j, m, k);
    }
  }

  /** The entry for player k is set once, to what k lost. */
  lemma {:induction false} ScanEntryOf(rest: seq<int>, ord: seq<nat>, names: seq<string>, p: nat, j: nat, m: Entries, k: nat)
    requires |names| == |rest| && p < |rest| && Fits(ord, |rest|) && j <= |ord|
    requires rest[p] < 0 && DistinctNames(names) && k < |rest| && k != p
    ensures var s := Scan(rest, ord, names, p, j, m);
      Get(s.trans, names[k]) == (if s.rest[k] == rest[k] then Get(m, names[k]) else Some(rest[k] - s.rest[k]))
    decreases |ord| - j, 1
  {
    if j < |ord| {
      if rest[ord[j]] <= 0 {
        ScanSkip(rest, ord, names, p, j, m);
        ScanEntryOf(rest, ord, names, p, j + 1, m, k);
      } else {
        ScanEntryPaid(rest, ord, names, p, j, m, k);
      }
    }
  }

  /** ScanEntryOf when the player at position j is owed something. */
  lemma {:induction false} ScanEntryPaid(rest: seq<int>, ord: seq<nat>, names: seq<string>, p: nat, j: nat, m: Entries, k: nat)
    requires |names| == |rest| && p < |rest| && Fits(ord, |rest|) && j < |ord| && rest[ord[j]] > 0
    requires rest[p] < 0 && DistinctNames(names) && k < |rest| && k != p
    ensures var s := Scan(rest, ord, names, p, j, m);
      Get(s.trans, names[k]) == (if s.rest[k] == rest[k] then Get(m, names[k]) else Some(rest[k] - s.rest[k]))
    decreases |ord| - j, 0
  {
    var q := ord[j];
    var amount := Min(0 - rest[p], rest[q]);
    var r1 := rest[p := rest[p] + amount];
    var r2 := r1[q := r1[q] - amount];
    var m' := Put(m, names[q], amount);
    ScanPay(rest, ord, names, p, j, m, amount, r2, m');
    PutNamed(m, names, q, k, amount);
    assert q != p && 0 < amount && r2[q] == rest[q] - amount;
    assert k != q ==> r2[k] == rest[k];
    if r2[p] == 0 {
      assert Scan(rest, ord, names, p, j, m) == Scanned(r2, m');
    } else {
      var s := Scan(r2, ord, names, p, j + 1, m');
      assert Scan(rest, ord, names, p, j, m) == s;
      ScanEntryOf(r2, ord, names, p, j + 1, m', k);
      if k == q {
        assert amount == rest[q] && r2[q] == 0;
        ScanKeeps(r2, ord, names, p, j + 1, m', q);
        assert s.rest[q] == 0;
      }
    }
  }

  /** A player other than the debtor who is owed nothing is left as is. */
  lemma {:induction false} ScanKeeps(rest: seq<int>, ord: seq<nat>, names: seq<string>, p: nat, j: nat, m: Entries, k: nat)
    requires |names| == |rest| && p < |rest| && Fits(ord, |rest|) && j <= |ord|
    requires k < |rest| && k != p && rest[k] <= 0
    ensures Scan(rest, ord, names, p, j, m).rest[k] == rest[k]
    decreases |ord| - j
  {
    if j < |ord| {
      var q := ord[j];
      if rest[q] <= 0 {
        ScanSkip(rest, ord, names, p, j, m);
        ScanKeeps(rest, ord, names, p, j + 1, m, k);
      } else {
        var amount := Min(0 - rest[p], rest[q]);
        var r1 := rest[p := rest[p] + amount];
        var r2 := r1[q := r1[q] - amount];
        var m' := Put(m, names[q], amount);
        ScanPay(rest, ord, names, p, j, m, amount, r2, m');
        if r2[p] != 0 {
          ScanKeeps(r2, ord, names, p, j + 1, m', k);
        }
      }
    }
  }

  /** With distinct names, a transfer to player q changes q's entry only. */
  lemma PutNamed(m: Entries, names: seq<string>, q: nat, k: nat, v: int)
    requires DistinctNames(names) && q < |names| && k < |names|
    ensures Get(Put(m, names[q], v), names[k]) == if k == q then Some(v) else Get(m, names[k])
  {
    if k != q {
      DistinctAt(names, k, q);
    }
    PutGet(m, names[q], v, names[k]);
  }

  /** The sum of the amounts of a map. */
  function Total(m: Entries): int {
    if m == [] then 0 else Total(m[..|m| - 1]) + m[|m| - 1].1
  }

  lemma TotalSnoc(m: Entries, e: (string, int))
    ensures Total(m + [e]) == Total(m) + e.1
  {
    assert (m + [e])[..|m|] == m;
  }

  /** No player who is still owed anything has an entry yet. */
  predicate NoCreditorListed(m: Entries, rest: seq<int>, names: seq<string>)
    requires |names| == |rest|
  {
    forall k :: 0 <= k < |rest| && rest[k] > 0 ==> names[k] !in Keys(m)
  }

  /** With distinct names, the amounts the debtor records add up to what it
      paid: the rise of its restitution. */
  lemma {:induction false} ScanPaysWhatItRecords(rest: seq<int>, ord: seq<nat>, names: seq<string>, p: nat, j: nat, m: Entries)
    requires |names| == |rest| && p < |rest| && Fits(ord, |rest|) && j <= |ord|
    requires rest[p] < 0 && DistinctNames(names) && NoCreditorListed(m, rest, names)
    ensures var s := Scan(rest, ord, names, p, j, m);
      Total(s.trans) == Total(m) + (s.rest[p] - rest[p])
    decreases |ord| - j
  {
    if j < |ord| {
      var q := ord[j];
      if rest[q] <= 0 {
        ScanSkip(rest, ord, names, p, j, m);
        ScanPaysWhatItRecords(rest, ord, names, p, j + 1, m);
      } else {
        var amount := Min(0 - rest[p], rest[q]);
        var r1 := rest[p := rest[p] + amount];
        var r2 := r1[q := r1[q] - amount];
        var m' := Put(m, names[q], amount);
        ScanPay(rest, ord, names, p, j, m, amount, r2, m');
        IndexOfSpec(m, names[q]);
        assert m' == m + [(names[q], amount)];
        TotalSnoc(m, (names[q], amount));
        if r2[p] != 0 {
          PutKeys(m, names[q], amount);
          forall k | 0 <= k < |r2| && r2[k] > 0 ensures names[k] !in Keys(m') {
            DistinctAt(names, k, q);
          }
          ScanPaysWhatItRecords(r2, ord, names, p, j + 1, m');
        }
      }
    }
  }

  // ---- The outer loop as written ----

  lemma {:induction false} WalkConserves(rest: seq<int>, order: seq<nat>, names: seq<string>, i: nat)
    requires |names| == |rest| && Fits(order, |rest|) && i <= |order|
    ensures Sum(Walk(rest, order, names, i).rest) == Sum(rest)
    decreases |order| - i
  {
    if i < |order| {
      var p := order[i];
      if rest[p] >= 0 {
        WalkConserves(rest, order, names, i + 1);
      } else {
        var ord := Reversed(order);
        ReversedFits(order, |rest|);
        var s := Scan(rest, ord, names, p, 0, []);
        ScanConserves(rest, ord, names, p, 0, []);
        WalkConserves(s.rest, ord, names, i + 1);
      }
    }
  }

  lemma ReversedTwice(s: seq<nat>)
    ensures Reversed(Reversed(s)) == s
  {
  }

  lemma Parity(a: nat)
    ensures (a + 1) % 2 == 1 - a % 2
  {
  }

  /** Each debtor reverses the array once: after the loop it is back in sorted
      order exactly when an even number of debtors were visited. */
  lemma {:induction false} WalkOrder(rest: seq<int>, order: seq<nat>, names: seq<string>, i: nat)
    requires |names| == |rest| && Fits(order, |rest|) && i <= |order|
    ensures |Walk(rest, order, names, i).visits| % 2 == 0 ==> Walk(rest, order, names, i).order == order
    ensures |Walk(rest, order, names, i).visits| % 2 == 1 ==> Walk(rest, order, names, i).order == Reversed(order)
    decreases |order| - i, 1
  {
    if i < |order| {
      if rest[order[i]] >= 0 {
        WalkOrder(rest, order, names, i + 1);
        assert Walk(rest, order, names, i) == Walk(rest, order, names, i + 1);
      } else {
        WalkOrderDebtor(rest, order, names, i);
      }
    }
  }

  /** WalkOrder when the player at index i owes. */
  lemma {:induction false} WalkOrderDebtor(rest: seq<int>, order: seq<nat>, names: seq<string>, i: nat)
    requires |names| == |rest| && Fits(order, |rest|) && i < |order| && rest[order[i]] < 0
    ensures |Walk(rest, order, names, i).visits| % 2 == 0 ==> Walk(rest, order, names, i).order == order
    ensures |Walk(rest, order, names, i).visits| % 2 == 1 ==> Walk(rest, order, names, i).order == Reversed(order)
    decreases |order| - i, 0
  {
    var p := order[i];
    var ord := Reversed(order);
    ReversedFits(order, |rest|);
    ReversedTwice(order);
    var s := Scan(rest, ord, names, p, 0, []);
    var w := Walk(s.rest, ord, names, i + 1);
    var v := Walk(rest, order, names, i);
    assert v == Walked(w.rest, w.order, [Visit(p, s.trans)] + w.visits);
    WalkOrder(s.rest, ord, names, i + 1);
    assert |v.visits| == |w.visits| + 1;
    Parity(|w.visits|);
  }

  /** Nobody is pushed across zero by the whole loop: a player who starts
      owing ends owing no more and no less than 0, a player who starts owed
      ends owed between 0 and that amount. */
  lemma {:induction false} WalkSigns(rest: seq<int>, order: seq<nat>, names: seq<string>, i: nat)
    requires |names| == |rest| && Fits(order, |rest|) && i <= |order|
    ensures var r := Walk(rest, order, names, i).rest;
      && |r| == |rest|
      && (forall k :: 0 <= k < |rest| && rest[k] <= 0 ==> rest[k] <= r[k] <= 0)
      && (forall k :: 0 <= k < |rest| && rest[k] > 0 ==> 0 <= r[k] <= rest[k])
    decreases |order| - i
  {
    WalkDebtors(rest, order, names, i);
    if i < |order| {
      var p := order[i];
      if rest[p] >= 0 {
        WalkSigns(rest, order, names, i + 1);
      } else {
        var ord := Reversed(order);
        ReversedFits(order, |rest|);
        var s := Scan(rest, ord, names, p, 0, []);
        ScanSigns(rest, ord, names, p, 0, []);
        WalkSigns(s.rest, ord, names, i + 1);
      }
    }
  }

  /** Every section's amounts are positive, and none exceeds what its debtor
      owed before the loop; this needs nothing of the names. */
  predicate VisitsWithin(vs: seq<Visit>, rest: seq<int>) {
    forall k :: 0 <= k < |vs| ==> vs[k].debtor < |rest| && AmountsWithin(vs[k].trans, 0 - rest[vs[k].debtor])
  }

  lemma {:induction false} WalkAmounts(rest: seq<int>, order: seq<nat>, names: seq<string>, i: nat)
    requires |names| == |rest| && Fits(order, |rest|) && i <= |order|
    ensures VisitsWithin(Walk(rest, order, names, i).visits, rest)
    decreases |order| - i
  {
    if i < |order| {
      var p := order[i];
      if rest[p] >= 0 {
        WalkAmounts(rest, order, names, i + 1);
        assert Walk(rest, order, names, i) == Walk(rest, order, names, i + 1);
      } else {
        var ord := Reversed(order);
        ReversedFits(order, |rest|);
        var s := Scan(rest, ord, names, p, 0, []);
        ScanAmounts(rest, ord, names, p, 0, [], 0 - rest[p]);
        ScanSigns(rest, ord, names, p, 0, []);
        WalkAmounts(s.rest, ord, names, i + 1);
        WalkVisitsOwed(s.rest, ord, names, i + 1);
        var w := Walk(s.rest, ord, names, i + 1);
        var vs := [Visit(p, s.trans)] + w.visits;
        assert Walk(rest, order, names, i).visits == vs;
        forall k | 0 <= k < |vs|
          ensures vs[k].debtor < |rest| && AmountsWithin(vs[k].trans, 0 - rest[vs[k].debtor])
        {
          if k > 0 {
            var d := w.visits[k - 1].debtor;
            assert vs[k] == w.visits[k - 1] && s.rest[d] < 0;
            assert 0 - s.rest[d] <= 0 - rest[d];
          }
        }
      }
    }
  }

  predicate VisitsPayOthers(vs: seq<Visit>, names: seq<string>) {
    forall k :: 0 <= k < |vs| ==> vs[k].debtor < |names| && PaysOthers(vs[k].trans, names[vs[k].debtor])
  }

  /** With distinct names no section lists a transfer from its debtor to itself. */
  lemma {:induction false} WalkEntries(rest: seq<int>, order: seq<nat>, names: seq<string>, i: nat)
    requires |names| == |rest| && Fits(order, |rest|) && i <= |order| && DistinctNames(names)
    ensures VisitsPayOthers(Walk(rest, order, names, i).visits, names)
    decreases |order| - i
  {
    if i < |order| {
      var p := order[i];
      if rest[p] >= 0 {
        WalkEntries(rest, order, names, i + 1);
        assert Walk(rest, order, names, i) == Walk(rest, order, names, i + 1);
      } else {
        var ord := Reversed(order);
        ReversedFits(order, |rest|);
        var s := Scan(rest, ord, names, p, 0, []);
        ScanEntries(rest, ord, names, p, 0, []);
        var w := Walk(s.rest, ord, names, i + 1);
        var vs := [Visit(p, s.trans)] + w.visits;
        assert Walk(rest, order, names, i).visits == vs;
        WalkEntries(s.rest, ord, names, i + 1);
        forall k | 0 <= k < |vs|
          ensures vs[k].debtor < |names| && PaysOthers(vs[k].trans, names[vs[k].debtor])
        {
          if k > 0 {
            assert vs[k] == w.visits[k - 1];
          }
        }
      }
    }
  }

  /** What player k's sections add up to. */
  function PaidBy(vs: seq<Visit>, k: nat): int {
    if vs == [] then 0 else (if vs[0].debtor == k then Total(vs[0].trans) else 0) + PaidBy(vs[1..], k)
  }

  /** What one map lists for the name `who`. */
  function Received(m: Entries, who: string): int {
    match Get(m, who)
    case None => 0
    case Some(a) => a
  }

  /** What the sections list for the name `who`, all together. */
  function ReceivedBy(vs: seq<Visit>, who: string): int {
    if vs == [] then 0 else Received(vs[0].trans, who) + ReceivedBy(vs[1..], who)
  }

  /** With distinct names the report's figures are the loop's ledger: the
      sections of a player who starts owing add up to what it paid in all,
      and the lines that name a player who starts owed add up to what it
      received, and to 0 for every other player. */
  lemma {:induction false} WalkLedger(rest: seq<int>, order: seq<nat>, names: seq<string>, i: nat)
    requires |names| == |rest| && Fits(order, |rest|) && i <= |order| && DistinctNames(names)
    ensures var w := Walk(rest, order, names, i);
      && |w.rest| == |rest|
      && (forall k :: 0 <= k < |rest| ==>
            PaidBy(w.visits, k) == (if rest[k] <= 0 then w.rest[k] - rest[k] else 0))
      && (forall k :: 0 <= k < |rest| ==>
            ReceivedBy(w.visits, names[k]) == (if rest[k] > 0 then rest[k] - w.rest[k] else 0))
    decreases |order| - i
  {
    WalkSigns(rest, order, names, i);
    if i < |order| {
      var p := order[i];
      if rest[p] >= 0 {
        WalkLedger(rest, order, names, i + 1);
        assert Walk(rest, order, names, i) == Walk(rest, order, names, i + 1);
      } else {
        var ord := Reversed(order);
        ReversedFits(order, |rest|);
        var s := Scan(rest, ord, names, p, 0, []);
        ScanSigns(rest, ord, names, p, 0, []);
        ScanEntries(rest, ord, names, p, 0, []);
        assert Keys([]) == [];
        ScanPaysWhatItRecords(rest, ord, names, p, 0, []);
        WalkLedger(s.rest, ord, names, i + 1);
        WalkSigns(s.rest, ord, names, i + 1);
        var w := Walk(s.rest, ord, names, i + 1);
        var vs := [Visit(p, s.trans)] + w.visits;
        assert Walk(rest, order, names, i) == Walked(w.rest, w.order, vs);
        assert vs[1..] == w.visits;
        forall k | 0 <= k < |rest|
          ensures PaidBy(vs, k) == (if rest[k] <= 0 then w.rest[k] - rest[k] else 0)
        {
          assert PaidBy(vs, k) == (if k == p then Total(s.trans) else 0) + PaidBy(w.visits, k);
        }
        forall k | 0 <= k < |rest|
          ensures ReceivedBy(vs, names[k]) == (if rest[k] > 0 then rest[k] - w.rest[k] else 0)
        {
          assert ReceivedBy(vs, names[k]) == Received(s.trans, names[k]) + ReceivedBy(w.visits, names[k]);
          if k == p {
            ReceivedNone(s.trans, names[p]);
          } else {
            ScanRecords(rest, ord, names, p, 0, [], k);
          }
        }
      }
    }
  }

  /** A payer's map lists nothing for the payer itself. */
  lemma ReceivedNone(m: Entries, payer: string)
    requires PaysOthers(m, payer)
    ensures Received(m, payer) == 0
  {
    IndexOfSpec(m, payer);
  }

  /** Only a player whose restitution is negative when the loop reaches it
      gets a section, and nobody who starts out owed or even ever comes to owe:
      every debtor of the walk was a debtor from the start. */
  lemma {:induction false} WalkVisitsOwed(rest: seq<int>, order: seq<nat>, names: seq<string>, i: nat)
    requires |names| == |rest| && Fits(order, |rest|) && i <= |order|
    ensures forall k :: 0 <= k < |Walk(rest, order, names, i).visits| ==>
      Walk(rest, order, names, i).visits[k].debtor < |rest| && rest[Walk(rest, order, names, i).visits[k].debtor] < 0
    decreases |order| - i
  {
    if i < |order| {
      var p := order[i];
      if rest[p] >= 0 {
        WalkVisitsOwed(rest, order, names, i + 1);
        assert Walk(rest, order, names, i) == Walk(rest, order, names, i + 1);
      } else {
        var ord := Reversed(order);
        ReversedFits(order, |rest|);
        var s := Scan(rest, ord, names, p, 0, []);
        ScanSigns(rest, ord, names, p, 0, []);
        WalkVisitsOwed(s.rest, ord, names, i + 1);
        var w := Walk(s.rest, ord, names, i + 1);
        var vs := [Visit(p, s.trans)] + w.visits;
        assert Walk(rest, order, names, i).visits == vs;
        forall k | 0 <= k < |vs| ensures vs[k].debtor < |rest| && rest[vs[k].debtor] < 0 {
          if k > 0 {
            var d := w.visits[k - 1].debtor;
            assert vs[k].debtor == d && s.rest[d] < 0;
          }
        }
      }
    }
  }

  /** At most one visit per position of the array. */
  lemma {:induction false} WalkVisitsBound(rest: seq<int>, order: seq<nat>, names: seq<string>, i: nat)
    requires |names| == |rest| && Fits(order, |rest|) && i <= |order|
    ensures |Walk(rest, order, names, i).visits| <= |order| - i
    decreases |order| - i
  {
    if i < |order| {
      var p := order[i];
      if rest[p] >= 0 {
        WalkVisitsBound(rest, order, names, i + 1);
      } else {
        var ord := Reversed(order);
        ReversedFits(order, |rest|);
        var s := Scan(rest, ord, names, p, 0, []);
        WalkVisitsBound(s.rest, ord, names, i + 1);
      }
    }
  }

  lemma {:induction false} SectionsOfLength(players: seq<PlayerStats>, vs: seq<Visit>)
    requires forall k :: 0 <= k < |vs| ==> vs[k].debtor < |players|
    ensures |SectionsOf(players, vs)| == |vs|
  {
    if vs != [] {
      SectionsOfLength(players, vs[1..]);
    }
  }

  lemma SectionsOfTwo(players: seq<PlayerStats>, a: Visit, b: Visit)
    requires a.debtor < |players| && b.debtor < |players|
    ensures SectionsOf(players, [a, b]) == [Section(Label(players[a.debtor]), FieldText(a.trans)),
                                            Section(Label(players[b.debtor]), FieldText(b.trans))]
  {
    assert [a, b][1..] == [b];
    assert [b][1..] == [];
    assert SectionsOf(players, [b]) == [Section(Label(players[b.debtor]), FieldText(b.trans))] + [];
  }

  lemma SectionsOfThree(players: seq<PlayerStats>, a: Visit, b: Visit, c: Visit)
    requires a.debtor < |players| && b.debtor < |players| && c.debtor < |players|
    ensures SectionsOf(players, [a, b, c]) == [Section(Label(players[a.debtor]), FieldText(a.trans)),
                                               Section(Label(players[b.debtor]), FieldText(b.trans)),
                                               Section(Label(players[c.debtor]), FieldText(c.trans))]
  {
    assert [a, b, c][1..] == [b, c];
    SectionsOfTwo(players, b, c);
  }

  lemma SectionsFromWalk(players: seq<PlayerStats>, vs: seq<Visit>)
    requires Walk(Restitutions(players), Identity(|players|), Names(players), 0).visits == vs
    ensures forall k :: 0 <= k < |vs| ==> vs[k].debtor < |players|
    ensures SettlementSections(players) == SectionsOf(players, vs)
  {
    WalkDebtors(Restitutions(players), Identity(|players|), Names(players), 0);
  }

  lemma FixedSectionsFromWalk(players: seq<PlayerStats>, vs: seq<Visit>)
    requires WalkFixed(Restitutions(players), Identity(|players|), Names(players), 0).visits == vs
    ensures forall k :: 0 <= k < |vs| ==> vs[k].debtor < |players|
    ensures FixedSettlementSections(players) == SectionsOf(players, vs)
  {
    WalkFixedDebtors(Restitutions(players), Identity(|players|), Names(players), 0);
  }

  /** The report has no more sections than players. A debtor can still get
      two: see `AsWrittenRevisitsDebtor`. */
  lemma SettlementSectionsBound(players: seq<PlayerStats>)
    ensures |SettlementSections(players)| <= |players|
  {
    var n := |players|;
    var rest := Restitutions(players);
    var names := Names(players);
    WalkDebtors(rest, Identity(n), names, 0);
    WalkVisitsBound(rest, Identity(n), names, 0);
    SectionsOfLength(players, Walk(rest, Identity(n), names, 0).visits);
  }

  // ---- The outer loop as evidently intended ----

  lemma {:induction false} WalkFixedConserves(rest: seq<int>, order: seq<nat>, names: seq<string>, i: nat)
    requires |names| == |rest| && Fits(order, |rest|) && i <= |order|
    ensures Sum(WalkFixed(rest, order, names, i).rest) == Sum(rest)
    decreases |order| - i
  {
    if i < |order| {
      var p := order[i];
      if rest[p] >= 0 {
        WalkFixedConserves(rest, order, names, i + 1);
      } else {
        var ord := Reversed(order);
        ReversedFits(order, |rest|);
        var s := Scan(rest, ord, names, p, 0, []);
        ScanConserves(rest, ord, names, p, 0, []);
        WalkFixedConserves(s.rest, order, names, i + 1);
      }
    }
  }

  /** No player in `order` is still owed anything. */
  predicate NoCredit(r: seq<int>, order: seq<nat>)
    requires Fits(order, |r|)
  {
    forall t :: 0 <= t < |order| ==> r[order[t]] <= 0
  }

  /** The players before position i owe nothing, or nobody can be paid any more. */
  predicate PaidUpTo(r: seq<int>, order: seq<nat>, i: nat)
    requires Fits(order, |r|) && i <= |order|
  {
    NoCredit(r, order) || forall t :: 0 <= t < i ==> r[order[t]] >= 0
  }

  lemma {:induction false} WalkFixedSettles(rest: seq<int>, order: seq<nat>, names: seq<string>, i: nat)
    requires |names| == |rest| && Fits(order, |rest|) && i <= |order|
    requires PaidUpTo(rest, order, i)
    ensures |WalkFixed(rest, order, names, i).rest| == |rest|
    ensures PaidUpTo(WalkFixed(rest, order, names, i).rest, order, |order|)
    decreases |order| - i
  {
    if i < |order| {
      var p := order[i];
      if rest[p] >= 0 {
        WalkFixedSettles(rest, order, names, i + 1);
      } else {
        var ord := Reversed(order);
        ReversedFits(order, |rest|);
        var s := Scan(rest, ord, names, p, 0, []);
        ScanSigns(rest, ord, names, p, 0, []);
        ScanExhausts(rest, ord, names, p, 0, []);
        assert PaidUpTo(s.rest, order, i + 1) by {
          if s.rest[p] < 0 {
            forall t | 0 <= t < |order| ensures s.rest[order[t]] <= 0 {
              assert order[t] == ord[|order| - 1 - t];
            }
          } else if NoCredit(rest, order) {
            forall t | 0 <= t < |order| ensures s.rest[order[t]] <= 0 {
              assert rest[order[t]] <= 0;
            }
          } else {
            forall t | 0 <= t < i + 1 ensures s.rest[order[t]] >= 0 {
              if t < i {
                assert rest[order[t]] >= 0;
              }
            }
          }
        }
        WalkFixedSettles(s.rest, order, names, i + 1);
      }
    }
  }

  lemma IdentityFits(n: nat)
    ensures Fits(Identity(n), n)
  {
  }

  predicate AllAtLeastZero(r: seq<int>) {
    forall k :: 0 <= k < |r| ==> r[k] >= 0
  }

  predicate AllAtMostZero(r: seq<int>) {
    forall k :: 0 <= k < |r| ==> r[k] <= 0
  }

  /** A sum of numbers of one sign has that sign, and is 0 only when every
      number is 0. */
  lemma {:induction false} SumOneSign(r: seq<int>)
    ensures AllAtLeastZero(r) ==> Sum(r) >= 0
    ensures AllAtMostZero(r) ==> Sum(r) <= 0
    ensures AllAtLeastZero(r) || AllAtMostZero(r) ==> (Sum(r) == 0 <==> forall k :: 0 <= k < |r| ==> r[k] == 0)
  {
    if r != [] {
      var tail := r[1..];
      SumOneSign(tail);
      assert forall k :: 0 <= k < |tail| ==> tail[k] == r[k + 1];
      if AllAtLeastZero(r) {
        assert AllAtLeastZero(tail);
      }
      if AllAtMostZero(r) {
        assert AllAtMostZero(tail);
      }
      if forall k :: 0 <= k < |r| ==> r[k] == 0 {
        assert forall k :: 0 <= k < |tail| ==> tail[k] == 0;
      }
    }
  }

  /** With the walk left in sorted order the loop settles as far as money
      allows: afterwards nobody owes or nobody is owed, and when the
      restitutions sum to 0 everyone ends at 0. */
  lemma FixedSettlesEveryone(rest: seq<int>, names: seq<string>)
    requires |names| == |rest|
    ensures var r := WalkFixed(rest, Identity(|rest|), names, 0).rest;
      && |r| == |rest| && Sum(r) == Sum(rest)
      && (AllAtLeastZero(r) || AllAtMostZero(r))
      && (Sum(rest) == 0 ==> forall k :: 0 <= k < |r| ==> r[k] == 0)
  {
    var n := |rest|;
    var order := Identity(n);
    IdentityFits(n);
    WalkFixedSettles(rest, order, names, 0);
    WalkFixedConserves(rest, order, names, 0);
    var r := WalkFixed(rest, order, names, 0).rest;
    assert forall k :: 0 <= k < n ==> order[k] == k;
    if NoCredit(r, order) {
      forall k | 0 <= k < n ensures r[k] <= 0 {
        assert order[k] == k;
      }
    } else {
      forall k | 0 <= k < n ensures r[k] >= 0 {
        assert order[k] == k;
      }
    }
    SumOneSign(r);
  }

  // ---- A party of four, as written and corrected ----

  const Four: seq<string> := ["A", "B", "C", "D"]
  const Up: seq<nat> := [0, 1, 2, 3]
  const Down: seq<nat> := [3, 2, 1, 0]

  lemma IdentityFour()
    ensures Identity(4) == Up
  {
  }

  lemma Flips()
    ensures Reversed(Up) == Down && Reversed(Down) == Up
  {
  }

  lemma ScanFirst()
    ensures Scan([-3, -2, -1, 6], Down, Four, 0, 0, []) == Scanned([0, -2, -1, 3], [("D", 3)])
  {
  }

  lemma ScanThirdUp()
    ensures Scan([0, -2, -1, 3], Up, Four, 2, 0, []) == Scanned([0, -2, 0, 2], [("D", 1)])
  {
  }

  lemma ScanSecondDown()
    ensures Scan([0, -2, -1, 3], Down, Four, 1, 0, []) == Scanned([0, 0, -1, 1], [("D", 2)])
  {
  }

  lemma ScanThirdDown()
    ensures Scan([0, 0, -1, 1], Down, Four, 2, 0, []) == Scanned([0, 0, 0, 0], [("D", 1)])
  {
  }

  /** Balances 3, 2, 1 and -6 give restitutions -3, -2, -1 and 6, which sum
      to 0. The first debtor reverses the array, so the index then meets the
      third debtor and skips the second: it pays nothing, and the creditor is
      left owed 2. */
  lemma AsWrittenSkipsDebtor()
    ensures Sum([-3, -2, -1, 6]) == 0
    ensures var w := Walk([-3, -2, -1, 6], Up, Four, 0);
      && w.rest == [0, -2, 0, 2]
      && w.visits == [Visit(0, [("D", 3)]), Visit(2, [("D", 1)])]
  {
    Flips();
    ScanFirst();
    ScanThirdUp();
    var w3 := Walk([0, -2, 0, 2], Up, Four, 2);
    assert w3 == Walked([0, -2, 0, 2], Up, []);
    var w2 := Walk([0, -2, -1, 3], Down, Four, 1);
    assert w2 == Walked([0, -2, 0, 2], Up, [Visit(2, [("D", 1)])]);
  }

  const Three: seq<string> := ["A", "B", "C"]

  lemma ScanRevisitFirst()
    ensures Scan([-2, 0, 1], [2, 1, 0], Three, 0, 0, []) == Scanned([-1, 0, 0], [("C", 1)])
  {
  }

  lemma ScanRevisitAgain()
    ensures Scan([-1, 0, 0], [0, 1, 2], Three, 0, 0, []) == Scanned([-1, 0, 0], [])
  {
  }

  /** Balances 3, 0 and -1 give restitutions -2, 0 and 1. The first debtor
      reverses the array, takes the only credit and is still in debt; the
      index then reads it again from the reversed array, so it gets a second,
      empty, section. */
  lemma AsWrittenRevisitsDebtor()
    ensures var w := Walk([-2, 0, 1], [0, 1, 2], Three, 0);
      && w.rest == [-1, 0, 0]
      && w.visits == [Visit(0, [("C", 1)]), Visit(0, [])]
  {
    assert Reversed([0, 1, 2]) == [2, 1, 0];
    assert Reversed([2, 1, 0]) == [0, 1, 2];
    ScanRevisitFirst();
    ScanRevisitAgain();
    var w2 := Walk([-1, 0, 0], [2, 1, 0], Three, 2);
    assert w2 == Walked([-1, 0, 0], [0, 1, 2], [Visit(0, [])]);
  }

  /** The same party settled by the corrected loop: all three debtors pay. */
  lemma FixedSettlesExample()
    ensures var w := WalkFixed([-3, -2, -1, 6], Up, Four, 0);
      && w.rest == [0, 0, 0, 0]
      && w.visits == [Visit(0, [("D", 3)]), Visit(1, [("D", 2)]), Visit(2, [("D", 1)])]
  {
    Flips();
    ScanFirst();
    ScanSecondDown();
    ScanThirdDown();
    var w4 := WalkFixed([0, 0, 0, 0], Up, Four, 3);
    assert w4 == Walked([0, 0, 0, 0], Up, []);
    var w3 := WalkFixed([0, 0, -1, 1], Up, Four, 2);
    assert w3 == Walked([0, 0, 0, 0], Up, [Visit(2, [("D", 1)])]);
    var w2 := WalkFixed([0, -2, -1, 3], Up, Four, 1);
    assert w2 == Walked([0, 0, 0, 0], Up, [Visit(1, [("D", 2)]), Visit(2, [("D", 1)])]);
  }
}
