/** Extraction: the matches of PARTY_HUNT_REGEX over a message, one
    PlayerStats record per match, in text order.

    The regular expression is modelled line by line: a block is a header line
    followed by five field lines, the lines being the text cut at "\n". */
module Extraction {
  import opened Wrappers
  import opened Text
  import opened Numbers

  /** One player of the hunt; restitution is 0 until it is computed. */
  datatype PlayerStats = PlayerStats(
    name: string,
    isLeader: bool,
    loot: Num,
    supplies: Num,
    balance: Num,
    damage: Num,
    healing: Num,
    restitution: int)

  const LeaderMark: string := " (Leader)"

  /** The part of a header before the optional marker: a header ends in the
      leader marker whenever it can, since the name group is lazy and may not
      be empty. */
  predicate HasLeaderMark(line: string) {
    |line| > |LeaderMark| && EndsWith(line, LeaderMark)
  }

  /** `^(?<name>.+?)(?<leader> \(Leader\))?` up to the end of the line. */
  function ParseHeader(line: string): (r: Option<(string, bool)>)
    ensures r.Some? <==> line != [] && NoLineTerminator(line)
    ensures r.Some? ==> r.value.0 != [] && r.value.1 == HasLeaderMark(line)
    ensures r.Some? ==> line == r.value.0 + (if r.value.1 then LeaderMark else "")
  {
    if line == [] || !NoLineTerminator(line) then None
    else if HasLeaderMark(line) then Some((line[..|line| - |LeaderMark|], true))
    else Some((line, false))
  }

  /** The number of `\s` characters the line starts with. */
  function LeadingSpaces(s: string): (k: nat)
    ensures k <= |s|
  {
    if s != [] && IsJsSpace(s[0]) then 1 + LeadingSpaces(s[1..]) else 0
  }

  /** LeadingSpaces is the longest run of `\s` characters at the front. */
  lemma {:induction false} LeadingSpacesMaximal(s: string)
    ensures forall i :: 0 <= i < LeadingSpaces(s) ==> IsJsSpace(s[i])
    ensures LeadingSpaces(s) == |s| || !IsJsSpace(s[LeadingSpaces(s)])
  {
    if s != [] && IsJsSpace(s[0]) {
      LeadingSpacesMaximal(s[1..]);
    }
  }

  /** The position of the first line terminator, or the length. */
  function FirstTerminator(s: string): (k: nat)
    ensures k <= |s|
  {
    if s != [] && !IsLineTerminator(s[0]) then 1 + FirstTerminator(s[1..]) else 0
  }

  /** FirstTerminator is the first line terminator: none comes before it. */
  lemma {:induction false} FirstTerminatorFirst(s: string)
    ensures NoLineTerminator(s[..FirstTerminator(s)])
    ensures FirstTerminator(s) == |s| || IsLineTerminator(s[FirstTerminator(s)])
  {
    if s != [] && !IsLineTerminator(s[0]) {
      FirstTerminatorFirst(s[1..]);
      assert s[..FirstTerminator(s)] == [s[0]] + s[1..][..FirstTerminator(s[1..])];
    }
  }

  /** `\s+<field>: (?<v>.+)`. A field other than the last is followed by
      "\n", so its value runs to the end of the line; the last one is
      followed by `$`, so its value runs to the first line terminator. */
  function ParseField(line: string, field: string, last: bool): (r: Option<string>)
    ensures r.Some? ==> r.value != [] && NoLineTerminator(r.value)
  {
    var k := LeadingSpaces(line);
    var tag := field + ": ";
    var rest := line[k..];
    if k == 0 || !StartsWith(rest, tag) then None
    else
      var v := rest[|tag|..];
      var value := if last then v[..FirstTerminator(v)] else v;
      if value == [] || !NoLineTerminator(value) then None else Some(value)
  }

  /** The record of one match: `name`, `!!leader` and parseNumber of each group. */
  function ToPlayer(header: (string, bool), loot: string, sup: string, blnc: string, dmg: string, heal: string): PlayerStats {
    PlayerStats(header.0, header.1, ParseNumber(Some(loot)), ParseNumber(Some(sup)),
                ParseNumber(Some(blnc)), ParseNumber(Some(dmg)), ParseNumber(Some(heal)), 0)
  }

  /** A match of the whole pattern on six consecutive lines. */
  function MatchBlock(block: seq<string>): Option<PlayerStats>
    requires |block| == 6
  {
    var h := ParseHeader(block[0]);
    var loot := ParseField(block[1], "Loot", false);
    var sup := ParseField(block[2], "Supplies", false);
    var blnc := ParseField(block[3], "Balance", false);
    var dmg := ParseField(block[4], "Damage", false);
    var heal := ParseField(block[5], "Healing", true);
    if h.Some? && loot.Some? && sup.Some? && blnc.Some? && dmg.Some? && heal.Some? then
      Some(ToPlayer(h.value, loot.value, sup.value, blnc.value, dmg.value, heal.value))
    else None
  }

  /** A match of the whole pattern starting at line i. */
  function MatchAt(lines: seq<string>, i: nat): Option<PlayerStats> {
    if i + 6 > |lines| then None else MatchBlock(lines[i..i + 6])
  }

  /** Whether the pattern matches at each line start, and what. */
  function Candidates(lines: seq<string>): seq<Option<PlayerStats>> {
    seq(|lines|, j requires 0 <= j < |lines| => MatchAt(lines, j))
  }

  /** matchAll from line i on: a match consumes its six lines, and the search
      goes on at the next line start. */
  function Collect(cands: seq<Option<PlayerStats>>, i: nat): seq<PlayerStats>
    decreases |cands| - i
  {
    if i >= |cands| then []
    else
      match cands[i]
      case Some(p) => [p] + Collect(cands, i + 6)
      case None => Collect(cands, i + 1)
  }

  function Extract(content: string): seq<PlayerStats> {
    var lines := SplitLines(content);
    Collect(Candidates(lines), 0)
  }

  /** The loop over `content.matchAll(PARTY_HUNT_REGEX)` that pushes one record per match. */
  method ExtractPlayers(content: string) returns (players: seq<PlayerStats>)
    ensures players == Extract(content)
  {
    var lines := SplitLines(content);
    ghost var cands := Candidates(lines);
    players := [];
    var i := 0;
    while i < |lines|
      invariant players + Collect(cands, i) == Collect(cands, 0)
      decreases |lines| - i
    {
      var m := NextMatch(lines, i);
      if m.Some? {
        assert Collect(cands, i) == [m.value] + Collect(cands, i + 6);
        players := players + [m.value];
        i := i + 6;
      } else {
        assert Collect(cands, i) == Collect(cands, i + 1);
        i := i + 1;
      }
    }
  }

  /** One step of the regular-expression engine: try the pattern at line i.
      A method of its own so that the loop above sees the match only as the
      candidate at i. */
  method NextMatch(lines: seq<string>, i: nat) returns (m: Option<PlayerStats>)
    requires i < |lines|
    ensures m == Candidates(lines)[i]
  {
    m := MatchAt(lines, i);
  }

  /** A match needs six lines after its start. */
  lemma CandidatesFit(lines: seq<string>)
    ensures forall j :: 0 <= j < |lines| && Candidates(lines)[j].Some? ==> j + 6 <= |lines|
  {
    forall j | 0 <= j < |lines| && Candidates(lines)[j].Some? ensures j + 6 <= |lines| {
      assert MatchAt(lines, j).Some?;
    }
  }

  /** Every record takes six lines of the text. */
  lemma {:induction false} CollectTakesSix(cands: seq<Option<PlayerStats>>, i: nat)
    requires i <= |cands|
    requires forall j :: 0 <= j < |cands| && cands[j].Some? ==> j + 6 <= |cands|
    ensures 6 * |Collect(cands, i)| <= |cands| - i
    decreases |cands| - i
  {
    if i < |cands| {
      if cands[i].Some? {
        CollectTakesSix(cands, i + 6);
      } else {
        CollectTakesSix(cands, i + 1);
      }
    }
  }

  /** At most one record per six lines of the log. */
  lemma ExtractBound(content: string)
    ensures 6 * |Extract(content)| <= |SplitLines(content)|
  {
    var lines := SplitLines(content);
    CandidatesFit(lines);
    CollectTakesSix(Candidates(lines), 0);
  }

  // ---- A log in the block format the pattern matches, and extraction reading it back ----

  /** A record that can be rendered in that format and read back: every
      figure an integer, a name on one line, and a non-leader whose name does
      not end in the marker. */
  predicate Printable(p: PlayerStats) {
    && p.name != [] && NoLineTerminator(p.name)
    && (!p.isLeader ==> !HasLeaderMark(p.name))
    && p.loot.Int? && p.supplies.Int? && p.balance.Int? && p.damage.Int? && p.healing.Int?
    && p.restitution == 0
  }

  predicate AllPrintable(ps: seq<PlayerStats>) {
    forall k :: 0 <= k < |ps| ==> Printable(ps[k])
  }

  function FieldLine(field: string, n: Num): string
    requires n.Int?
  {
    "  " + field + ": " + Grouped(n.value)
  }

  /** The six lines of one player's block. */
  function Render(p: PlayerStats): (block: seq<string>)
    requires Printable(p)
    ensures |block| == 6
  {
    [p.name + (if p.isLeader then LeaderMark else ""),
     FieldLine("Loot", p.loot), FieldLine("Supplies", p.supplies), FieldLine("Balance", p.balance),
     FieldLine("Damage", p.damage), FieldLine("Healing", p.healing)]
  }

  function RenderAll(ps: seq<PlayerStats>): seq<string>
    requires AllPrintable(ps)
  {
    Flatten(seq(|ps|, k requires 0 <= k < |ps| => Render(ps[k])))
  }

  lemma GroupedIsPlain(n: int)
    ensures Grouped(n) != [] && NoLineTerminator(Grouped(n))
    ensures Grouped(n)[0] != ' '
  {
    var m: nat := if n < 0 then -n else n;
    GroupedNatPlain(m);
  }

  lemma {:induction false} GroupedNatPlain(n: nat)
    ensures GroupedNat(n) != [] && GroupedNat(n)[0] != ' '
    ensures forall k :: 0 <= k < |GroupedNat(n)| ==> IsDigit(GroupedNat(n)[k]) || GroupedNat(n)[k] == ','
  {
    if n >= 1000 {
      GroupedNatPlain(n / 1000);
    }
  }

  lemma FieldLineParses(field: string, n: Num, last: bool)
    requires n.Int? && field != [] && !IsJsSpace(field[0])
    ensures ParseField(FieldLine(field, n), field, last) == Some(Grouped(n.value))
  {
    var line := FieldLine(field, n);
    var g := Grouped(n.value);
    GroupedIsPlain(n.value);
    assert line == "  " + (field + ": " + g);
    assert LeadingSpaces(line) == 2 by {
      assert line[0] == ' ' && line[1] == ' ' && line[2] == field[0];
      assert LeadingSpaces(line[2..]) == 0;
      assert LeadingSpaces(line[1..]) == 1 + LeadingSpaces(line[2..]) by {
        assert line[1..][1..] == line[2..];
      }
    }
    var rest := line[2..];
    assert rest == field + ": " + g;
    assert StartsWith(rest, field + ": ");
    assert rest[|field + ": "|..] == g;
    if last {
      FirstTerminatorOfPlain(g);
      assert g[..|g|] == g;
    }
  }

  lemma {:induction false} FirstTerminatorOfPlain(s: string)
    requires NoLineTerminator(s)
    ensures FirstTerminator(s) == |s|
  {
    if s != [] {
      FirstTerminatorOfPlain(s[1..]);
    }
  }

  lemma ParseNumberOfGrouped(n: Num)
    requires n.Int?
    ensures ParseNumber(Some(Grouped(n.value))) == n
  {
    GroupedRoundTrip(n.value);
  }

  lemma HeaderOfRendered(p: PlayerStats)
    requires Printable(p)
    ensures ParseHeader(Render(p)[0]) == Some((p.name, p.isLeader))
  {
    var header := Render(p)[0];
    assert NoLineTerminator(LeaderMark);
    assert NoLineTerminator(header);
    if p.isLeader {
      assert HasLeaderMark(header);
      assert header[..|header| - |LeaderMark|] == p.name;
    } else {
      assert header == p.name;
    }
  }

  /** A block whose six lines all match yields the record of the parsed captures. */
  lemma MatchBlockOf(block: seq<string>, h: (string, bool), loot: string, sup: string, blnc: string, dmg: string, heal: string)
    requires |block| == 6
    requires ParseHeader(block[0]) == Some(h)
    requires ParseField(block[1], "Loot", false) == Some(loot)
    requires ParseField(block[2], "Supplies", false) == Some(sup)
    requires ParseField(block[3], "Balance", false) == Some(blnc)
    requires ParseField(block[4], "Damage", false) == Some(dmg)
    requires ParseField(block[5], "Healing", true) == Some(heal)
    ensures MatchBlock(block) == Some(ToPlayer(h, loot, sup, blnc, dmg, heal))
  {
  }

  lemma MatchBlockRendered(p: PlayerStats)
    requires Printable(p)
    ensures MatchBlock(Render(p)) == Some(p)
  {
    var b := Render(p);
    HeaderOfRendered(p);
    FieldLineParses("Loot", p.loot, false);
    FieldLineParses("Supplies", p.supplies, false);
    FieldLineParses("Balance", p.balance, false);
    FieldLineParses("Damage", p.damage, false);
    FieldLineParses("Healing", p.healing, true);
    MatchBlockOf(b, (p.name, p.isLeader), Grouped(p.loot.value), Grouped(p.supplies.value),
      Grouped(p.balance.value), Grouped(p.damage.value), Grouped(p.healing.value));
    ToPlayerOfGrouped(p);
  }

  lemma ToPlayerOfGrouped(p: PlayerStats)
    requires Printable(p)
    ensures ToPlayer((p.name, p.isLeader), Grouped(p.loot.value), Grouped(p.supplies.value),
      Grouped(p.balance.value), Grouped(p.damage.value), Grouped(p.healing.value)) == p
  {
    ParseNumberOfGrouped(p.loot);
    ParseNumberOfGrouped(p.supplies);
    ParseNumberOfGrouped(p.balance);
    ParseNumberOfGrouped(p.damage);
    ParseNumberOfGrouped(p.healing);
  }

  lemma MatchAtIs(lines: seq<string>, j: nat)
    requires j + 6 <= |lines|
    ensures MatchAt(lines, j) == MatchBlock(lines[j..j + 6])
  {
  }

  lemma CandidateOfRendered(ps: seq<PlayerStats>, k: nat)
    requires AllPrintable(ps) && k < |ps|
    ensures |RenderAll(ps)| == 6 * |ps|
    ensures Candidates(RenderAll(ps))[6 * k] == Some(ps[k])
  {
    var blocks := seq(|ps|, t requires 0 <= t < |ps| => Render(ps[t]));
    var lines := RenderAll(ps);
    FlattenBlock(blocks, k);
    assert lines[6 * k..6 * k + 6] == Render(ps[k]);
    MatchBlockRendered(ps[k]);
    MatchAtIs(lines, 6 * k);
  }

  /** The scan over the candidates of a text made of consecutive matches yields them all, in order. */
  lemma {:induction false} CollectConsecutive(cands: seq<Option<PlayerStats>>, ps: seq<PlayerStats>, k: nat)
    requires |cands| == 6 * |ps| && k <= |ps|
    requires forall t :: 0 <= t < |ps| ==> cands[6 * t] == Some(ps[t])
    ensures Collect(cands, 6 * k) == ps[k..]
    decreases |ps| - k
  {
    if k < |ps| {
      var i := 6 * k;
      assert i + 6 == 6 * (k + 1) <= |cands|;
      assert cands[i] == Some(ps[k]);
      CollectConsecutive(cands, ps, k + 1);
      calc {
        Collect(cands, i);
        [ps[k]] + Collect(cands, i + 6);
        [ps[k]] + ps[k + 1..];
        { SliceCons(ps, k); }
        ps[k..];
      }
    }
  }

  lemma SliceCons<T>(s: seq<T>, k: nat)
    requires k < |s|
    ensures [s[k]] + s[k + 1..] == s[k..]
  {
  }

  lemma RenderedHasNoNewline(ps: seq<PlayerStats>)
    requires AllPrintable(ps)
    ensures NoNewline(RenderAll(ps))
  {
    var blocks := seq(|ps|, t requires 0 <= t < |ps| => Render(ps[t]));
    forall t | 0 <= t < |blocks| ensures NoNewline(blocks[t]) {
      forall i | 0 <= i < 6 ensures '\n' !in blocks[t][i] {
        RenderPlain(ps[t], i);
      }
    }
    FlattenNoNewline(blocks);
  }

  /** Extraction reads back, in order, every player of a log rendered by
      `Render`: one block per player, two-space indented field lines and
      comma-grouped figures, with no other lines. */
  lemma ExtractRendered(ps: seq<PlayerStats>)
    requires AllPrintable(ps)
    ensures Extract(JoinLines(RenderAll(ps))) == ps
  {
    var lines := RenderAll(ps);
    var text := JoinLines(lines);
    if ps == [] {
      assert lines == [];
      assert SplitLines("") == [""];
      assert SplitLines(text) == [""];
      assert MatchAt([""], 0) == None;
      assert Candidates([""]) == [None];
      assert Collect([None], 0) == Collect([None], 1) == [];
    } else {
      FlattenBlock(seq(|ps|, t requires 0 <= t < |ps| => Render(ps[t])), 0);
      RenderedHasNoNewline(ps);
      SplitJoin(lines);
      assert SplitLines(text) == lines;
      var cands := Candidates(lines);
      forall t | 0 <= t < |ps| ensures cands[6 * t] == Some(ps[t]) {
        CandidateOfRendered(ps, t);
      }
      CollectConsecutive(cands, ps, 0);
    }
  }

  lemma FieldLinePlain(field: string, n: Num)
    requires n.Int? && NoLineTerminator(field)
    ensures NoLineTerminator(FieldLine(field, n))
  {
    GroupedIsPlain(n.value);
    var g := Grouped(n.value);
    var line := FieldLine(field, n);
    forall k | 0 <= k < |line| ensures !IsLineTerminator(line[k]) {
      if k < 2 {
      } else if k < 2 + |field| {
        assert line[k] == field[k - 2];
      } else if k < 4 + |field| {
      } else {
        assert line[k] == g[k - 4 - |field|];
      }
    }
  }

  lemma FieldNamesPlain()
    ensures NoLineTerminator("Loot") && NoLineTerminator("Supplies") && NoLineTerminator("Balance")
    ensures NoLineTerminator("Damage") && NoLineTerminator("Healing")
  {
  }

  lemma RenderPlain(p: PlayerStats, k: nat)
    requires Printable(p) && k < 6
    ensures '\n' !in Render(p)[k]
  {
    var line := Render(p)[k];
    FieldNamesPlain();
    if k == 0 {
      HeaderOfRendered(p);
    } else if k == 1 {
      FieldLinePlain("Loot", p.loot);
    } else if k == 2 {
      FieldLinePlain("Supplies", p.supplies);
    } else if k == 3 {
      FieldLinePlain("Balance", p.balance);
    } else if k == 4 {
      FieldLinePlain("Damage", p.damage);
    } else {
      FieldLinePlain("Healing", p.healing);
    }
    assert NoLineTerminator(line);
  }
}
