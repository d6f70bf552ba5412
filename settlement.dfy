/** The matching loop: every player with a negative restitution, in the order
    the loop meets them, takes money from the players with a positive one,
    and the report gets one section each time the loop reaches such a
    debtor.

    Players are numbered by their place in the sorted array; `rest[k]` is the
    restitution of player k (the field the loop changes through the object),
    and `order` is the array the loop runs over, which holds player numbers
    and is reversed in place by `sortedPlayers.reverse()`. */
module Settlement {
  import opened Text
  import opened Numbers
  import opened Extraction
  import opened Restitution
  import opened Transactions

  /** One field of the report's embed: its name and its value. */
  datatype Section = Section(name: string, value: string)

  /** The crown put before the leader's name. */
  const Crown: string := "\U{1F451} "

  function Label(p: PlayerStats): string {
    (if p.isLeader then Crown else "") + p.name
  }

  function Reversed(s: seq<nat>): seq<nat> {
    seq(|s|, k requires 0 <= k < |s| => s[|s| - 1 - k])
  }

  function Identity(n: nat): seq<nat> {
    seq(n, k requires 0 <= k < n => k)
  }

  predicate Fits(order: seq<nat>, n: nat) {
    forall j :: 0 <= j < |order| ==> order[j] < n
  }

  function Min(a: int, b: int): int {
    if a <= b then a else b
  }

  function Names(ps: seq<PlayerStats>): (ns: seq<string>)
    ensures |ns| == |ps| && forall k :: 0 <= k < |ps| ==> ns[k] == ps[k].name
  {
    if ps == [] then [] else [ps[0].name] + Names(ps[1..])
  }

  /** The state after the inner loop: the restitutions and the debtor's map. */
  datatype Scanned = Scanned(rest: seq<int>, trans: Entries)

  /** The inner loop (lines 82-96) for debtor p from position j of `ord` on:
      players whose restitution is not positive are skipped; from each other
      one the debtor takes `Math.min(-debt, credit)`; the loop stops as soon
      as the debtor is at 0. */
  function Scan(rest: seq<int>, ord: seq<nat>, names: seq<string>, p: nat, j: nat, m: Entries): (r: Scanned)
    requires |names| == |rest| && p < |rest| && Fits(ord, |rest|) && j <= |ord|
    ensures |r.rest| == |rest|
    decreases |ord| - j
  {
    if j == |ord| then Scanned(rest, m)
    else
      var q := ord[j];
      if rest[q] <= 0 then Scan(rest, ord, names, p, j + 1, m)
      else
        var amount := Min(0 - rest[p], rest[q]);
        var r1 := rest[p := rest[p] + amount];
        var r2 := r1[q := r1[q] - amount];
        var m' := Put(m, names[q], amount);
        if r2[p] == 0 then Scanned(r2, m') else Scan(r2, ord, names, p, j + 1, m')
  }

  /** One section's worth: who paid, and to whom. */
  datatype Visit = Visit(debtor: nat, trans: Entries)

  datatype Walked = Walked(rest: seq<int>, order: seq<nat>, visits: seq<Visit>)

  /** The outer loop (lines 77-99) from index i on, as written: the index runs
      over the array even though each debtor reverses it. */
  function Walk(rest: seq<int>, order: seq<nat>, names: seq<string>, i: nat): Walked
    requires |names| == |rest| && Fits(order, |rest|) && i <= |order|
    decreases |order| - i
  {
    if i == |order| then Walked(rest, order, [])
    else
      var p := order[i];
      if rest[p] >= 0 then Walk(rest, order, names, i + 1)
      else
        var ord := Reversed(order);
        ReversedFits(order, |rest|);
        var s := Scan(rest, ord, names, p, 0, []);
        var w := Walk(s.rest, ord, names, i + 1);
        Walked(w.rest, w.order, [Visit(p, s.trans)] + w.visits)
  }

  /** The outer loop as evidently intended: the players are taken in sorted
      order, and each debtor looks at the creditors from the largest down,
      without the walk itself being reordered. */
  function WalkFixed(rest: seq<int>, order: seq<nat>, names: seq<string>, i: nat): Walked
    requires |names| == |rest| && Fits(order, |rest|) && i <= |order|
    decreases |order| - i
  {
    if i == |order| then Walked(rest, order, [])
    else
      var p := order[i];
      if rest[p] >= 0 then WalkFixed(rest, order, names, i + 1)
      else
        ReversedFits(order, |rest|);
        var s := Scan(rest, Reversed(order), names, p, 0, []);
        var w := WalkFixed(s.rest, order, names, i + 1);
        Walked(w.rest, w.order, [Visit(p, s.trans)] + w.visits)
  }

  lemma ReversedFits(order: seq<nat>, n: nat)
    requires Fits(order, n)
    ensures Fits(Reversed(order), n)
  {
  }

  function SectionsOf(players: seq<PlayerStats>, visits: seq<Visit>): seq<Section>
    requires forall k :: 0 <= k < |visits| ==> visits[k].debtor < |players|
  {
    if visits == [] then []
    else
      [Section(Label(players[visits[0].debtor]), FieldText(visits[0].trans))] + SectionsOf(players, visits[1..])
  }

  lemma {:induction false} WalkDebtors(rest: seq<int>, order: seq<nat>, names: seq<string>, i: nat)
    requires |names| == |rest| && Fits(order, |rest|) && i <= |order|
    ensures Fits(Walk(rest, order, names, i).order, |rest|)
    ensures |Walk(rest, order, names, i).rest| == |rest|
    ensures forall k :: 0 <= k < |Walk(rest, order, names, i).visits| ==>
      Walk(rest, order, names, i).visits[k].debtor < |rest|
    decreases |order| - i
  {
    if i < |order| {
      var p := order[i];
      if rest[p] >= 0 {
        WalkDebtors(rest, order, names, i + 1);
      } else {
        var ord := Reversed(order);
        ReversedFits(order, |rest|);
        var s := Scan(rest, ord, names, p, 0, []);
        WalkDebtors(s.rest, ord, names, i + 1);
      }
    }
  }

  /** The sections the outer loop adds from index i on. */
  function WalkSections(players: seq<PlayerStats>, rest: seq<int>, order: seq<nat>, i: nat): seq<Section>
    requires |rest| == |players| && Fits(order, |players|) && i <= |order|
  {
    WalkDebtors(rest, order, Names(players), i);
    SectionsOf(players, Walk(rest, order, Names(players), i).visits)
  }

  /** The sections of the report for the sorted players. */
  function SettlementSections(players: seq<PlayerStats>): seq<Section> {
    WalkSections(players, Restitutions(players), Identity(|players|), 0)
  }

  lemma {:induction false} WalkFixedDebtors(rest: seq<int>, order: seq<nat>, names: seq<string>, i: nat)
    requires |names| == |rest| && Fits(order, |rest|) && i <= |order|
    ensures |WalkFixed(rest, order, names, i).rest| == |rest|
    ensures forall k :: 0 <= k < |WalkFixed(rest, order, names, i).visits| ==>
      WalkFixed(rest, order, names, i).visits[k].debtor < |rest|
    decreases |order| - i
  {
    if i < |order| {
      var p := order[i];
      if rest[p] >= 0 {
        WalkFixedDebtors(rest, order, names, i + 1);
      } else {
        ReversedFits(order, |rest|);
        var s := Scan(rest, Reversed(order), names, p, 0, []);
        WalkFixedDebtors(s.rest, order, names, i + 1);
      }
    }
  }

  /** The sections the corrected loop reports. */
  function FixedSettlementSections(players: seq<PlayerStats>): seq<Section> {
    var n := |players|;
    WalkFixedDebtors(Restitutions(players), Identity(n), Names(players), 0);
    SectionsOf(players, WalkFixed(Restitutions(players), Identity(n), Names(players), 0).visits)
  }

  lemma WalkSectionsSkip(players: seq<PlayerStats>, rest: seq<int>, order: seq<nat>, i: nat)
    requires |rest| == |players| && Fits(order, |players|) && i < |order|
    requires rest[order[i]] >= 0
    ensures WalkSections(players, rest, order, i) == WalkSections(players, rest, order, i + 1)
  {
  }

  lemma WalkSectionsDebtor(players: seq<PlayerStats>, rest: seq<int>, order: seq<nat>, i: nat)
    requires |rest| == |players| && Fits(order, |players|) && i < |order|
    requires rest[order[i]] < 0
    ensures Fits(Reversed(order), |players|)
    ensures
      var s := Scan(rest, Reversed(order), Names(players), order[i], 0, []);
      WalkSections(players, rest, order, i)
        == [Section(Label(players[order[i]]), FieldText(s.trans))] + WalkSections(players, s.rest, Reversed(order), i + 1)
  {
    var names := Names(players);
    var s := Scan(rest, Reversed(order), names, order[i], 0, []);
    WalkDebtors(s.rest, Reversed(order), names, i + 1);
    var w := Walk(s.rest, Reversed(order), names, i + 1);
    assert Walk(rest, order, names, i).visits == [Visit(order[i], s.trans)] + w.visits;
  }

  lemma AppendAssoc(a: seq<Section>, b: seq<Section>, c: seq<Section>)
    ensures (a + b) + c == a + (b + c)
  {
  }

  // ---- The loop as it runs: arrays changed in place ----

  /** `Array.prototype.reverse`, in place. */
  method Reverse(a: array<nat>)
    modifies a
    ensures a[..] == Reversed(old(a[..]))
  {
    var lo, hi := 0, a.Length - 1;
    while lo < hi
      invariant 0 <= lo <= a.Length && hi == a.Length - 1 - lo
      invariant forall k :: 0 <= k < lo ==> a[k] == old(a[a.Length - 1 - k]) && a[a.Length - 1 - k] == old(a[k])
      invariant forall k :: lo <= k <= hi ==> a[k] == old(a[k])
    {
      a[lo], a[hi] := a[hi], a[lo];
      lo, hi := lo + 1, hi - 1;
    }
  }

  /** The inner loop for debtor p over the (already reversed) array `order`. */
  method MatchDebtor(rest: array<int>, order: array<nat>, names: seq<string>, p: nat) returns (transactions: Entries)
    requires |names| == rest.Length && p < rest.Length && Fits(order[..], rest.Length)
    modifies rest
    ensures Scanned(rest[..], transactions) == Scan(old(rest[..]), order[..], names, p, 0, [])
  {
    ghost var ord := order[..];
    ghost var start := rest[..];
    transactions := [];
    var j := 0;
    while j < order.Length
      invariant j <= order.Length && order[..] == ord && rest.Length == |names|
      invariant Scan(rest[..], ord, names, p, j, transactions) == Scan(start, ord, names, p, 0, [])
    {
      var q := order[j];
      if rest[q] <= 0 {
        ScanSkip(rest[..], ord, names, p, j, transactions);
        j := j + 1;
        continue;
      }
      ghost var before := rest[..];
      var transAmount := Min(0 - rest[p], rest[q]);
      Transfer(rest, p, q, transAmount);
      ScanPay(before, ord, names, p, j, transactions, transAmount, rest[..], Put(transactions, names[q], transAmount));
      transactions := Put(transactions, names[q], transAmount);
      if rest[p] == 0 {
        break;
      }
      j := j + 1;
    }
  }

  /** The two assignments of one transfer: the debtor's restitution goes up
      by the amount, then the creditor's goes down by it. */
  method Transfer(rest: array<int>, p: nat, q: nat, amount: int)
    requires p < rest.Length && q < rest.Length
    modifies rest
    ensures rest[..] == old(rest[..])[p := old(rest[p]) + amount][q := old(rest[..])[p := old(rest[p]) + amount][q] - amount]
  {
    rest[p] := rest[p] + amount;
    rest[q] := rest[q] - amount;
  }

  lemma ScanSkip(rest: seq<int>, ord: seq<nat>, names: seq<string>, p: nat, j: nat, m: Entries)
    requires |names| == |rest| && p < |rest| && Fits(ord, |rest|) && j < |ord| && rest[ord[j]] <= 0
    ensures Scan(rest, ord, names, p, j, m) == Scan(rest, ord, names, p, j + 1, m)
  {
  }

  lemma ScanPay(rest: seq<int>, ord: seq<nat>, names: seq<string>, p: nat, j: nat, m: Entries,
                 amount: int, r2: seq<int>, m': Entries)
    requires |names| == |rest| && p < |rest| && Fits(ord, |rest|) && j < |ord| && rest[ord[j]] > 0
    requires amount == Min(0 - rest[p], rest[ord[j]])
    requires r2 == rest[p := rest[p] + amount][ord[j] := rest[p := rest[p] + amount][ord[j]] - amount]
    requires m' == Put(m, names[ord[j]], amount)
    ensures |r2| == |rest|
    ensures r2[p] == 0 ==> Scan(rest, ord, names, p, j, m) == Scanned(r2, m')
    ensures r2[p] != 0 ==> Scan(rest, ord, names, p, j, m) == Scan(r2, ord, names, p, j + 1, m')
  {
  }

  /** The loop at lines 77-99 over the sorted players. */
  method Settle(players: seq<PlayerStats>) returns (sections: seq<Section>)
    ensures sections == SettlementSections(players)
  {
    var n := |players|;
    var names := Names(players);
    var rest, order := NewArrays(players);
    sections := [];
    ghost var target := SettlementSections(players);
    var i := 0;
    while i < n
      invariant i <= n && rest.Length == n && order.Length == n
      invariant Fits(order[..], n)
      invariant sections + WalkSections(players, rest[..], order[..], i) == target
    {
      ghost var before := WalkSections(players, rest[..], order[..], i);
      var out := SettleStep(players, names, rest, order, i);
      ghost var after := WalkSections(players, rest[..], order[..], i + 1);
      assert before == out + after;
      AppendAssoc(sections, out, after);
      sections := sections + out;
      i := i + 1;
    }
  }

  /** The arrays the loop works on: the restitutions in player order, and the
      player indexes 0 .. n-1 that stand for `sortedPlayers`. */
  method NewArrays(players: seq<PlayerStats>) returns (rest: array<int>, order: array<nat>)
    ensures fresh(rest) && fresh(order)
    ensures rest[..] == Restitutions(players) && order[..] == Identity(|players|)
  {
    var n := |players|;
    rest := new int[n](k requires 0 <= k < n => players[k].restitution);
    order := new nat[n](k => k);
    assert rest[..] == Restitutions(players);
    assert order[..] == Identity(n);
  }

  /** One pass of the loop body: a player who owes nothing is passed over; for
      a debtor the array is reversed, the debtor matched against it, and its
      section printed. */
  method SettleStep(players: seq<PlayerStats>, names: seq<string>, rest: array<int>, order: array<nat>, i: nat)
    returns (out: seq<Section>)
    requires names == Names(players) && rest.Length == |players| && order.Length == |players|
    requires Fits(order[..], |players|) && i < order.Length
    modifies rest, order
    ensures Fits(order[..], |players|)
    ensures old(rest[order[i]]) >= 0 ==> out == [] && rest[..] == old(rest[..]) && order[..] == old(order[..])
    ensures old(rest[order[i]]) < 0 ==>
      && order[..] == Reversed(old(order[..]))
      && rest[..] == Scan(old(rest[..]), Reversed(old(order[..])), names, old(order[i]), 0, []).rest
    ensures WalkSections(players, old(rest[..]), old(order[..]), i)
      == out + WalkSections(players, rest[..], order[..], i + 1)
  {
    ghost var rest0, order0 := rest[..], order[..];
    var player := order[i];
    if rest[player] >= 0 {
      WalkSectionsSkip(players, rest0, order0, i);
      return [];
    }
    WalkSectionsDebtor(players, rest0, order0, i);
    Reverse(order);
    var transactions := MatchDebtor(rest, order, names, player);
    var body := BuildField(transactions);
    out := [Section(Label(players[player]), body)];
  }
}
