# Party hunt balance calculator

A Dafny model of the `balanceCalculator` monitor of a Discord bot for a
multiplayer game. The monitor reads a party hunt log pasted into a channel.

1. It finds every player block in the text: a header line with the name and an
   optional ` (Leader)` mark, then the `Loot`, `Supplies`, `Balance`, `Damage`
   and `Healing` lines.
2. It reads each figure with `parseNumber`: commas removed, then `parseInt`
   in base 10.
3. It shares the party balance out evenly. Each player's restitution is
   `Math.trunc(partyBalance / N - balance)`. Negative means the player owes;
   positive means the player is owed.
4. It sorts the players by restitution, smallest first. The sort is stable.
5. It walks the sorted array and matches each debtor the outer loop reaches
   against the creditors greedily. Because each debtor reverses that array
   in place, the loop can skip a debtor, or reach one a second time (see
   "Findings"). It replies with one embed field each time it reaches a
   debtor, so never more fields than players; a debtor reached again gets a
   second, possibly empty, field. The label is the name, with a crown for
   the leader. The body has one `transfer <amount> to <name>` line per
   creditor paid.

The modules follow that pipeline:

| file | module | what it holds |
|---|---|---|
| `wrappers.dfy` | `Wrappers` | `Option` |
| `text.dfy` | `Text` | JavaScript's `\s` and line terminators; splitting and joining on `"\n"` |
| `numbers.dfy` | `Numbers` | `parseInt`, `parseNumber`, the `Num` type (an integer or NaN), and how integers are printed |
| `extraction.dfy` | `Extraction` | the `PlayerStats` record; the matcher for the log's pattern and the `matchAll` loop; a log in the block format the pattern matches, rendered and read back |
| `restitution.dfy` | `Restitution` | truncating division, the party balance, the `map` that sets restitutions, the stable sort |
| `transactions.dfy` | `Transactions` | the JavaScript `Map` of one debtor's transfers (entries in insertion order); `buildField` and reading a field back |
| `settlement.dfy` | `Settlement` | the matching loop |
| `settlement_proofs.dfy` | `SettlementProofs` | what the matching loop keeps and what it misses; the corrected loop |
| `handler.dfy` | `BalanceCalculator` | the handler from the message to the report; a party of four as a worked case |

The matching loop is specified twice.

**As a function.**
- `Scan` is the inner `for…of` over the array. `Walk` is the outer one.
- Restitutions are kept per player id in a sequence `rest`.
- `sortedPlayers` is a sequence `order` of ids.
- The outer index runs over `order` while each debtor reverses `order`, as the
  source's `sortedPlayers.reverse()` does to the array the outer loop is
  iterating over.

**As methods.** `Settle`, `SettleStep`, `Reverse`, `MatchDebtor` and
`Transfer` work in place on an `array<int>` of restitutions and an
`array<nat>` of ids. Each is proved equal to the function.

`Execute` is the handler written with those methods and loops. It is proved
equal to the function `Handle`.

The model follows the code in three points a reader might expect otherwise:
- Restitution uses the parsed `Balance` field directly. Loot and supplies
  play no part, and nothing is rounded to a multiple of the party size.
- Nothing redistributes the residue that truncation leaves.
  `Restitution.RestitutionResidue` bounds that residue.
- The in-place reversal is not the same as scanning the creditors from the
  largest down for each debtor in sorted order; see "Findings".

## Model

All source paths are in `src/monitors/balanceCalculator.ts`.

| member | source | states |
|---|---|---|
| Numbers.ParseNumberExamples | src/monitors/balanceCalculator.ts:18-24 | `undefined` reads as 0; `"1,234,567"` reads as 1234567 and `"-2,500"` as -2500 |
| Numbers.GroupedRoundTrip | src/monitors/balanceCalculator.ts:18-24 | parseNumber reads the comma-grouped rendering of every integer back as that integer |
| Numbers.CommasIgnored | src/monitors/balanceCalculator.ts:23 | a comma anywhere in the text does not change what parseNumber reads |
| Numbers.ParseIntOfDecimal | src/monitors/balanceCalculator.ts:23 | `parseInt(…, 10)` reads the decimal rendering of any integer back, whatever non-digit text follows it |
| Extraction.ParseHeader | src/monitors/balanceCalculator.ts:5 | a header matches exactly when it is a non-empty single line; the leader flag is set exactly when a non-empty name is followed by ` (Leader)`; the name and the optional mark together are the line |
| Extraction.ExtractPlayers | src/monitors/balanceCalculator.ts:44-57 | the loop over the matches pushes exactly the records of `Extract`, in text order |
| Extraction.ExtractBound | src/monitors/balanceCalculator.ts:44-57 | each record consumes six lines of the text, so there are at most a sixth as many records as lines |
| Extraction.ExtractRendered | src/monitors/balanceCalculator.ts:44-57 | a log printed from any list of printable players is read back as exactly that list, in order, with names, leader flags and the five figures |
| Restitution.TruncDiv | src/monitors/balanceCalculator.ts:68 | `Math.trunc(a / n)`: n times the quotient lies on the same side of 0 as a, less than n away from a |
| Restitution.TruncDivSign | src/monitors/balanceCalculator.ts:68 | the truncated quotient never has the opposite sign of the exact one |
| Restitution.WithRestitution | src/monitors/balanceCalculator.ts:64-70 | the `map` keeps every player and every field except restitution; restitution is the quotient (S - N·balance) / N truncated toward zero, where S is the sum of the balances |
| Restitution.RestitutionResidue | src/monitors/balanceCalculator.ts:63-70 | the restitutions sum to strictly between -N and N, and to exactly 0 when the party balance is a multiple of N |
| Restitution.SortPerm | src/monitors/balanceCalculator.ts:71 | the sort is a permutation: same multiset of records |
| Restitution.SortSorted | src/monitors/balanceCalculator.ts:71 | the sorted records are non-decreasing by restitution |
| Restitution.SortStable | src/monitors/balanceCalculator.ts:71 | for each restitution value, the records that carry it keep their relative order |
| Restitution.SortSum | src/monitors/balanceCalculator.ts:71 | the sort does not change the sum of the restitutions |
| Transactions.PutGet | src/monitors/balanceCalculator.ts:91 | after `transactions.set(k, v)` key k maps to v and every other key to what it mapped to before |
| Transactions.PutKeys | src/monitors/balanceCalculator.ts:91 | `set` keeps keys distinct; an existing key keeps its place (a second transfer to the same name overwrites the amount in place); a new key goes last |
| Transactions.PutEntries | src/monitors/balanceCalculator.ts:91 | after `set` the map holds the new entry, and every other entry was already there |
| Transactions.BuildField | src/monitors/balanceCalculator.ts:26-34 | the loop pushing one message per entry, then the join, returns the field text of the map |
| Transactions.DecodeTransferLine | src/monitors/balanceCalculator.ts:30 | every `transfer ${value} to ${key}` line is read back as its entry |
| Transactions.FieldRoundTrip | src/monitors/balanceCalculator.ts:26-34 | the field body lists the map's entries one line each, in insertion order, and nothing else (the empty map gives the empty body), provided no name holds a "\n" |
| Settlement.Reverse | src/monitors/balanceCalculator.ts:82 | `sortedPlayers.reverse()` leaves the array reversed in place |
| Settlement.Transfer | src/monitors/balanceCalculator.ts:87-89 | the debtor's restitution goes up by the amount, then the creditor's goes down by it, and nothing else changes |
| Settlement.MatchDebtor | src/monitors/balanceCalculator.ts:82-96 | the inner loop over the reversed array ends with the restitutions and the transfer map the scan `Scan` defines |
| Settlement.NewArrays | src/monitors/balanceCalculator.ts:64-77 | the arrays the loop starts from: the restitutions of the sorted players and their positions 0..N-1 |
| Settlement.SettleStep | src/monitors/balanceCalculator.ts:78-98 | one pass of the outer loop's body: no section for a player who owes nothing; otherwise the array is reversed, the debtor matched, and its labelled section emitted, as `Walk` defines |
| Settlement.Settle | src/monitors/balanceCalculator.ts:77-99 | the loop as it runs on the arrays emits exactly the sections of the walk `Walk` |
| SettlementProofs.ScanConserves | src/monitors/balanceCalculator.ts:87-89 | each transfer leaves the sum of all restitutions unchanged |
| SettlementProofs.ScanSigns | src/monitors/balanceCalculator.ts:83-89 | the debtor never pays more than it owes (it ends between its debt and 0); a creditor never receives more than it is owed (it ends between 0 and its credit); every other player who is owed nothing is left as is |
| SettlementProofs.ScanExhausts | src/monitors/balanceCalculator.ts:82-96 | a debtor still in debt after the inner loop has drained every creditor it scanned |
| SettlementProofs.ScanAmounts | src/monitors/balanceCalculator.ts:83-91 | every amount the debtor records is positive and at most what it owed when the inner loop began, whatever the names |
| SettlementProofs.ScanEntries | src/monitors/balanceCalculator.ts:83-91 | with distinct names the debtor never records a transfer to itself |
| SettlementProofs.ScanRecords | src/monitors/balanceCalculator.ts:83-91 | with distinct names, a player other than the debtor whose restitution changed is listed with exactly that change, which is positive and at most what it was owed; any other player's entry is left as it was |
| SettlementProofs.ScanPaysWhatItRecords | src/monitors/balanceCalculator.ts:83-91 | with distinct names, the recorded amounts add up to what the debtor paid: the rise of its restitution |
| SettlementProofs.WalkConserves | src/monitors/balanceCalculator.ts:77-99 | the whole outer loop leaves the sum of the restitutions unchanged |
| SettlementProofs.WalkOrder | src/monitors/balanceCalculator.ts:77-82 | each visited debtor reverses the array once: at the end it is in sorted order after an even number of debtors and reversed after an odd number |
| SettlementProofs.WalkSigns | src/monitors/balanceCalculator.ts:77-99 | over the whole loop a player who starts owing ends owing between its debt and 0, and a player who starts owed ends between 0 and its credit |
| SettlementProofs.WalkAmounts | src/monitors/balanceCalculator.ts:77-99 | every amount in every section is positive and at most what its debtor owed before the loop, whatever the names |
| SettlementProofs.WalkEntries | src/monitors/balanceCalculator.ts:77-99 | with distinct names no section lists a transfer from its debtor to itself |
| SettlementProofs.WalkLedger | src/monitors/balanceCalculator.ts:77-99 | with distinct names the report is the loop's ledger: a debtor's sections add up to what it paid, the lines naming a creditor add up to what it received, and they add up to 0 for every other player |
| SettlementProofs.WalkVisitsOwed | src/monitors/balanceCalculator.ts:77-98 | only players with negative restitution get a section, and each of them was a debtor before the loop started |
| SettlementProofs.WalkVisitsBound | src/monitors/balanceCalculator.ts:77-98 | the outer loop takes N index steps and visits at most one debtor per step |
| SettlementProofs.SettlementSectionsBound | src/monitors/balanceCalculator.ts:77-99 | the report has no more sections than players (a debtor the reversal brings round again can still get a second, possibly empty, section) |
| SettlementProofs.AsWrittenRevisitsDebtor | src/monitors/balanceCalculator.ts:77-98 | with restitutions -2, 0, 1 the debtor takes the only credit, still owes 1, is read again at index 2 of the reversed array and gets a second, empty, section |
| SettlementProofs.AsWrittenSkipsDebtor | src/monitors/balanceCalculator.ts:77-99 | with restitutions -3, -2, -1, 6 (sum 0), the loop as written pays 3 and 1 to the creditor, never visits the debtor of -2, and leaves the creditor owed 2 |
| SettlementProofs.WalkFixedConserves | src/monitors/balanceCalculator.ts:77-99 | the corrected loop also leaves the sum of the restitutions unchanged |
| SettlementProofs.WalkFixedSettles | src/monitors/balanceCalculator.ts:77-99 | with the walk kept in sorted order, after each step either no creditor is left or every player passed so far is settled |
| SettlementProofs.FixedSettlesEveryone | src/monitors/balanceCalculator.ts:77-99 | the corrected loop conserves the sum and ends with nobody owing or nobody owed; when the restitutions sum to 0 every one of them ends at 0 |
| SettlementProofs.FixedSettlesExample | src/monitors/balanceCalculator.ts:77-99 | the same party of four under the corrected loop: all three debtors pay, and every restitution ends at 0 |
| BalanceCalculator.Execute | src/monitors/balanceCalculator.ts:40-102 | the handler, written with the loops, arrays and in-place updates of the source, returns the outcome `Handle` defines |
| BalanceCalculator.HandleCases | src/monitors/balanceCalculator.ts:40-102 | nothing is sent exactly when the author is a bot or no block matches; a report has the title `Party Hunt Results #00`, the colour `#198754` and no more sections than players |
| BalanceCalculator.HandleRendered | src/monitors/balanceCalculator.ts:44-71 | for a log printed from a non-empty party, the report is the settlement of exactly that party, sorted |
| BalanceCalculator.FixedSettlesParty | src/monitors/balanceCalculator.ts:63-99 | when the party balance divides evenly, the corrected loop over the sorted players leaves every restitution at 0 |
| BalanceCalculator.PartyReport | src/monitors/balanceCalculator.ts:77-99 | a message listing balances 3, 2, 1 and -6 for A, B, C and D gets sections for A (`transfer 3 to D`) and C (`transfer 1 to D`) only; the corrected handler adds B (`transfer 2 to D`) |
| BalanceCalculator.PartyPrintable | src/monitors/balanceCalculator.ts:44-57 | that party, rendered in the block format the pattern matches, is such a message |

## Left out

- Regular expression (line 5): the pattern is modelled line by line, with the
  text cut at `"\n"`. A block is a header line and five field lines, each field
  line being `\s+`, the field name, `": "` and a non-empty value. Two things
  differ from JavaScript:
  - `\s+` can span a line break. The real pattern therefore accepts blank or
    whitespace-only lines between the header and the `Loot` line and between
    the field lines, and a field line with no indent when such a line comes
    before it. The model accepts neither. Worse, with a whitespace-only line
    right below the header, as in `X\n   \n  Loot: …`, the real pattern
    matches at `X` and names the player `X`, while the model rejects `X`,
    takes the line `"   "` as the header and names the player `"   "`.
  - `^` also matches after `"\r"`, U+2028 and U+2029, which the model does not
    treat as line starts.
- NaN: a balance `parseInt` cannot read makes every restitution NaN. The
  source then prints `transfer NaN to …` lines (NaN compares false both ways).
  The model stops at `Outcome.NotANumber` and does not model NaN arithmetic.
  A NaN in loot, supplies, damage or healing is kept in the record, as in the
  source, and is never used.
- Floating point: `partyBalance / players.length` is taken as an exact
  rational quotient. There is no 2^53 limit, and no exponent notation when
  large numbers are printed.
- Discord and framework plumbing: the registration with `botCache`,
  `ignoreDM`, the `Embed` class, `sendEmbed` and `console.log`. The report is a
  title, a colour and a list of (label, body) sections. `src/utils/Embed.ts`
  and `src/utils/helpers.ts` are not part of this model, nor is any limit they
  place on fields.
- The bot-author check is a boolean parameter of the handler.
- `src/permissionLevels/devs.ts` is a registry hook around an external
  configuration list, with no settlement logic.
- The crown is an opaque string constant. No Unicode handling is modelled.
- SettlementProofs.ScanEntries: "never to itself" is proved for parties whose
  names are distinct. With two players of the same name, a debtor's map may
  hold its own name.
- SettlementProofs.WalkEntries: this one also assumes distinct names.
- SettlementProofs.ScanRecords: assumes distinct names. The map is keyed by
  name, so two creditors of the same name share one entry, and the later
  `set` overwrites the earlier amount. Positivity and the bound by the
  debtor's debt (`ScanAmounts`, `WalkAmounts`) hold without this assumption.
- SettlementProofs.ScanPaysWhatItRecords: assumes distinct names, for the
  same reason.
- SettlementProofs.WalkLedger: assumes distinct names, for the same reason.

## Findings

| source | as written | input that shows it | evidently intended | confidence | as-written member | corrected member |
|---|---|---|---|---|---|---|
| src/monitors/balanceCalculator.ts:77-99 | `sortedPlayers.reverse()` reverses, in place, the array the outer `for…of` walks by index. After an odd number of debtors the outer loop is reading the reversed array, so it can revisit players and skip a debtor entirely. | balances 3, 2, 1, -6 (restitutions -3, -2, -1, 6): A pays D 3, then the index lands on C, who pays 1. B, who owes 2, is never visited, and D is left owed 2. | every debtor in sorted order pays the creditors from the largest down, and a party whose balance divides evenly ends fully settled | not executed | SettlementProofs.AsWrittenSkipsDebtor | SettlementProofs.FixedSettlesEveryone |

The as-written walk is `Settlement.Walk`. The handler `BalanceCalculator.Handle`
and its imperative version `BalanceCalculator.Execute` use it, because they
model the code.

The corrected walk is `Settlement.WalkFixed`. It keeps the outer order and
scans `Reversed(order)` for each debtor. `BalanceCalculator.HandleFixed` uses
it.

On the party of four, `BalanceCalculator.PartyReport` shows both. The
as-written handler omits B's section. The corrected handler gives all three
debtors a section. `BalanceCalculator.FixedSettlesParty` proves the corrected
loop settles every party whose balance divides evenly.
