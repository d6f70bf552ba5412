/** The balanceCalculator monitor: it reads the party hunt log in a message
    and answers with one embed that tells every player who is down how much
    to transfer to whom. */
module BalanceCalculator {
  import opened Text
  import opened Numbers
  import opened Extraction
  import opened Restitution
  import opened Transactions
  import opened Settlement
  import opened SettlementProofs

  const Title: string := "Party Hunt Results #00"
  const Color: string := "#198754"

  /** The embed sent back to the channel. */
  datatype Report = Report(title: string, color: string, sections: seq<Section>)

  datatype Outcome =
    | Ignored               // the handler returns and sends nothing
    | NotANumber            // a balance is not a number, so every restitution is NaN
    | Sent(report: Report)

  /** The handler (lines 40-102), as written. */
  function Handle(authorIsBot: bool, content: string): Outcome {
    if authorIsBot then Ignored
    else
      var players := Extract(content);
      if players == [] then Ignored
      else if !AllBalancesKnown(players) then NotANumber
      else Sent(Report(Title, Color, SettlementSections(SortedPlayers(players))))
  }

  /** The handler with the matching loop as evidently intended. */
  function HandleFixed(authorIsBot: bool, content: string): Outcome {
    if authorIsBot then Ignored
    else
      var players := Extract(content);
      if players == [] then Ignored
      else if !AllBalancesKnown(players) then NotANumber
      else Sent(Report(Title, Color, FixedSettlementSections(SortedPlayers(players))))
  }

  /** `execute`: step by step, with the loops of the source. */
  method Execute(authorIsBot: bool, content: string) returns (o: Outcome)
    ensures o == Handle(authorIsBot, content)
  {
    if authorIsBot {
      return Ignored;
    }
    var players := ExtractPlayers(content);
    if |players| == 0 {
      return Ignored;
    }
    if !AllBalancesKnown(players) {
      return NotANumber;
    }
    var sortedPlayers := SortedPlayers(players);
    var sections := Settle(sortedPlayers);
    o := Sent(Report(Title, Color, sections));
  }

  /** Nothing is sent for a bot's message or for one without a single match;
      a report has the fixed title and colour and no more sections than
      players. */
  lemma HandleCases(authorIsBot: bool, content: string)
    ensures Handle(authorIsBot, content) == Ignored <==> authorIsBot || Extract(content) == []
    ensures Handle(authorIsBot, content).Sent? ==>
      && Handle(authorIsBot, content).report.title == Title
      && Handle(authorIsBot, content).report.color == Color
      && |Handle(authorIsBot, content).report.sections| <= |Extract(content)|
  {
    var players := Extract(content);
    if !authorIsBot && players != [] && AllBalancesKnown(players) {
      var sorted := SortedPlayers(players);
      SortPerm(WithRestitution(players));
      assert |sorted| == |multiset(sorted)| == |players|;
      SettlementSectionsBound(sorted);
      assert Handle(authorIsBot, content).report.sections == SettlementSections(sorted);
    }
  }

  /** A log rendered in the block format the pattern matches is read back
      whole: the report is the settlement of exactly the players it lists. */
  lemma HandleRendered(ps: seq<PlayerStats>)
    requires AllPrintable(ps) && ps != []
    ensures AllBalancesKnown(ps)
    ensures Handle(false, JoinLines(RenderAll(ps)))
      == Sent(Report(Title, Color, SettlementSections(SortedPlayers(ps))))
  {
    ExtractRendered(ps);
  }

  /** With the corrected loop, a party whose balance splits evenly ends with
      nobody owing and nobody owed. */
  lemma FixedSettlesParty(ps: seq<PlayerStats>)
    requires AllBalancesKnown(ps) && |ps| > 0 && PartyBalance(ps) % |ps| == 0
    ensures var sp := SortedPlayers(ps);
      var r := WalkFixed(Restitutions(sp), Identity(|sp|), Names(sp), 0).rest;
      |r| == |ps| && forall k :: 0 <= k < |r| ==> r[k] == 0
  {
    var sp := SortedPlayers(ps);
    RestitutionResidue(ps);
    SortSum(WithRestitution(ps));
    SortPerm(WithRestitution(ps));
    assert |sp| == |multiset(sp)| == |ps|;
    FixedSettlesEveryone(Restitutions(sp), Names(sp));
  }

  // ---- The party of four ----

  /** A player with a name and a balance, every other figure 0. */
  function Member(name: string, balance: int): PlayerStats {
    PlayerStats(name, false, Int(0), Int(0), Int(balance), Int(0), Int(0), 0)
  }

  const Party: seq<PlayerStats> := [Member("A", 3), Member("B", 2), Member("C", 1), Member("D", -6)]

  /** The party after the `map`: restitutions -3, -2, -1 and 6, already in
      ascending order. */
  const Owing: seq<PlayerStats> := [Party[0].(restitution := -3), Party[1].(restitution := -2),
                                    Party[2].(restitution := -1), Party[3].(restitution := 6)]

  lemma PartyRestitutions()
    ensures AllBalancesKnown(Party) && PartyBalance(Party) == 0
    ensures WithRestitution(Party) == Owing
  {
    assert Balances(Party) == [3, 2, 1, -6];
    assert Sum([3, 2, 1, -6]) == 0;
    assert RestitutionOf(0, 4, 3) == -3 && RestitutionOf(0, 4, 2) == -2;
    assert RestitutionOf(0, 4, 1) == -1 && RestitutionOf(0, 4, -6) == 6;
  }

  lemma PartySorted()
    ensures AllBalancesKnown(Party) && SortedPlayers(Party) == Owing
    ensures Restitutions(Owing) == [-3, -2, -1, 6] && Names(Owing) == Four
  {
    PartyRestitutions();
    assert SortByRestitution(Owing[3..]) == Owing[3..];
    assert SortByRestitution(Owing[2..]) == Owing[2..];
    assert SortByRestitution(Owing[1..]) == Owing[1..];
  }

  lemma TransferTexts()
    ensures FieldText([("D", 3)]) == "transfer 3 to D"
    ensures FieldText([("D", 2)]) == "transfer 2 to D"
    ensures FieldText([("D", 1)]) == "transfer 1 to D"
  {
    assert ToDecimal(3) == "3" && ToDecimal(2) == "2" && ToDecimal(1) == "1";
    assert [("D", 3)][1..] == [] && [("D", 2)][1..] == [] && [("D", 1)][1..] == [];
    assert TransferLine(("D", 3)) == "transfer 3 to D";
    assert TransferLine(("D", 2)) == "transfer 2 to D";
    assert TransferLine(("D", 1)) == "transfer 1 to D";
    assert TransferLines([("D", 3)]) == ["transfer 3 to D"];
    assert TransferLines([("D", 2)]) == ["transfer 2 to D"];
    assert TransferLines([("D", 1)]) == ["transfer 1 to D"];
  }

  lemma OwingLabels()
    ensures |Owing| == 4 && Label(Owing[0]) == "A" && Label(Owing[1]) == "B" && Label(Owing[2]) == "C"
  {
  }

  /** What the party of four looks like to the matching loop. */
  predicate LikeOwing(players: seq<PlayerStats>) {
    && |players| == 4 && Restitutions(players) == [-3, -2, -1, 6] && Names(players) == Four
    && Label(players[0]) == "A" && Label(players[1]) == "B" && Label(players[2]) == "C"
  }

  lemma OwingLike()
    ensures LikeOwing(Owing)
  {
    PartySorted();
    OwingLabels();
  }

  lemma SkippedSections(players: seq<PlayerStats>)
    requires LikeOwing(players)
    ensures SettlementSections(players) == [Section("A", "transfer 3 to D"), Section("C", "transfer 1 to D")]
  {
    IdentityFour();
    AsWrittenSkipsDebtor();
    var v0, v2 := Visit(0, [("D", 3)]), Visit(2, [("D", 1)]);
    SectionsFromWalk(players, [v0, v2]);
    TransferTexts();
    SectionsOfTwo(players, v0, v2);
  }

  lemma FixedSections(players: seq<PlayerStats>)
    requires LikeOwing(players)
    ensures FixedSettlementSections(players)
      == [Section("A", "transfer 3 to D"), Section("B", "transfer 2 to D"), Section("C", "transfer 1 to D")]
  {
    IdentityFour();
    FixedSettlesExample();
    var v0, v1, v2 := Visit(0, [("D", 3)]), Visit(1, [("D", 2)]), Visit(2, [("D", 1)]);
    FixedSectionsFromWalk(players, [v0, v1, v2]);
    TransferTexts();
    SectionsOfThree(players, v0, v1, v2);
  }

  /** A message that lists the players with balances 3, 2, 1 and -6 gets a
      report in which B, who owes 2, has no section; the corrected loop gives
      B one. */
  lemma PartyReport(content: string)
    requires Extract(content) == Party
    ensures Handle(false, content) == Sent(Report(Title, Color,
      [Section("A", "transfer 3 to D"), Section("C", "transfer 1 to D")]))
    ensures HandleFixed(false, content) == Sent(Report(Title, Color,
      [Section("A", "transfer 3 to D"), Section("B", "transfer 2 to D"), Section("C", "transfer 1 to D")]))
  {
    PartySorted();
    OwingLike();
    SkippedSections(Owing);
    FixedSections(Owing);
  }

  /** That party, rendered in the block format the pattern matches, is such a
      message. */
  lemma PartyPrintable()
    ensures AllPrintable(Party)
    ensures Extract(JoinLines(RenderAll(Party))) == Party
  {
    ExtractRendered(Party);
  }
}
