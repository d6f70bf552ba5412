/** The transfers one debtor makes: a JavaScript `Map<string, number>` from
    creditor name to amount, and `buildField`, which prints it one
    `transfer <amount> to <name>` line per entry. */
module Transactions {
  import opened Wrappers
  import opened Text
  import opened Numbers

  /** A Map as JavaScript keeps it: its entries in insertion order. */
  type Entries = seq<(string, int)>

  function Keys(m: Entries): seq<string> {
    if m == [] then [] else [m[0].0] + Keys(m[1..])
  }

  lemma {:induction false} KeysAt(m: Entries)
    ensures |Keys(m)| == |m| && forall j :: 0 <= j < |m| ==> Keys(m)[j] == m[j].0
  {
    if m != [] {
      KeysAt(m[1..]);
    }
  }

  predicate KeysDistinct(m: Entries) {
    forall i, j :: 0 <= i < j < |m| ==> m[i].0 != m[j].0
  }

  /** The position of key k, if the map has it. */
  function IndexOf(m: Entries, k: string): (r: Option<nat>)
    ensures r.Some? ==> r.value < |m|
  {
    if m == [] then None
    else if m[0].0 == k then Some(0)
    else match IndexOf(m[1..], k)
      case None => None
      case Some(j) => Some(j + 1)
  }

  /** IndexOf finds the first entry with key k, and nothing when there is none. */
  lemma {:induction false} IndexOfSpec(m: Entries, k: string)
    ensures IndexOf(m, k).Some? ==> m[IndexOf(m, k).value].0 == k
    ensures IndexOf(m, k).Some? ==> forall j :: 0 <= j < IndexOf(m, k).value ==> m[j].0 != k
    ensures IndexOf(m, k).None? <==> k !in Keys(m)
  {
    if m != [] && m[0].0 != k {
      IndexOfSpec(m[1..], k);
    }
  }

  /** `map.get(k)` */
  function Get(m: Entries, k: string): Option<int> {
    match IndexOf(m, k)
    case None => None
    case Some(j) => Some(m[j].1)
  }

  /** `map.set(k, v)`: a key already there keeps its place and takes the new
      value; a new key goes last. */
  function Put(m: Entries, k: string, v: int): Entries {
    match IndexOf(m, k)
    case None => m + [(k, v)]
    case Some(j) => m[j := (k, v)]
  }

  /** Put adds the entry (k, v) and otherwise keeps entries of m. */
  lemma PutEntries(m: Entries, k: string, v: int)
    ensures (k, v) in Put(m, k, v)
    ensures forall e :: e in Put(m, k, v) ==> e == (k, v) || e in m
  {
    match IndexOf(m, k)
    case None =>
    case Some(j) =>
      var r := Put(m, k, v);
      assert r[j] == (k, v);
      forall e | e in r ensures e == (k, v) || e in m {
        var i :| 0 <= i < |r| && r[i] == e;
        if i != j {
          assert m[i] == e;
        }
      }
  }

  /** Put keeps the order of the keys and adds k last when it is new. */
  lemma PutKeys(m: Entries, k: string, v: int)
    ensures KeysDistinct(m) ==> KeysDistinct(Put(m, k, v))
    ensures k in Keys(m) ==> Keys(Put(m, k, v)) == Keys(m)
    ensures k !in Keys(m) ==> Keys(Put(m, k, v)) == Keys(m) + [k]
  {
    var r := Put(m, k, v);
    IndexOfSpec(m, k);
    KeysAt(m);
    KeysAt(r);
    if k !in Keys(m) {
      assert forall j :: 0 <= j < |m| ==> m[j].0 != k;
    }
  }

  /** Put is the dictionary update: k now maps to v, every other key as before. */
  lemma PutGet(m: Entries, k: string, v: int, k': string)
    ensures Get(Put(m, k, v), k) == Some(v)
    ensures k' != k ==> Get(Put(m, k, v), k') == Get(m, k')
  {
    var r := Put(m, k, v);
    IndexOfSpec(m, k);
    IndexOfSpec(m, k');
    IndexOfSpec(r, k');
    match IndexOf(m, k)
    case None =>
      IndexOfAppend(m, k, v, k);
      IndexOfAppend(m, k, v, k');
    case Some(j) =>
      IndexOfReplace(m, j, v, k);
      IndexOfReplace(m, j, v, k');
  }

  lemma {:induction false} IndexOfAppend(m: Entries, k: string, v: int, k': string)
    requires k !in Keys(m)
    ensures IndexOf(m + [(k, v)], k') == if k' == k then Some(|m|) else IndexOf(m, k')
  {
    if m != [] {
      assert (m + [(k, v)])[1..] == m[1..] + [(k, v)];
      assert Keys(m) == [m[0].0] + Keys(m[1..]);
      IndexOfAppend(m[1..], k, v, k');
    }
  }

  lemma {:induction false} IndexOfReplace(m: Entries, j: nat, v: int, k': string)
    requires j < |m| && IndexOf(m, m[j].0) == Some(j)
    ensures IndexOf(m[j := (m[j].0, v)], k') == IndexOf(m, k')
  {
    if m != [] && j > 0 {
      assert m[j := (m[j].0, v)][1..] == m[1..][j - 1 := (m[j].0, v)];
      IndexOfReplace(m[1..], j - 1, v, k');
    }
  }

  /** One line of the field: `transfer ${value} to ${key}`. */
  function TransferLine(e: (string, int)): string {
    "transfer " + ToDecimal(e.1) + " to " + e.0
  }

  function TransferLines(m: Entries): seq<string> {
    if m == [] then [] else [TransferLine(m[0])] + TransferLines(m[1..])
  }

  lemma {:induction false} TransferLinesAt(m: Entries)
    ensures |TransferLines(m)| == |m| && forall j :: 0 <= j < |m| ==> TransferLines(m)[j] == TransferLine(m[j])
  {
    if m != [] {
      TransferLinesAt(m[1..]);
    }
  }

  /** What buildField returns: the lines joined by "\n". */
  function FieldText(m: Entries): string {
    JoinLines(TransferLines(m))
  }

  /** buildField: one message per entry of `trans`, in insertion order, then
      `transferMsgs.join('\n')`. */
  method BuildField(trans: Entries) returns (body: string)
    ensures body == FieldText(trans)
  {
    var transferMsgs: seq<string> := [];
    var i := 0;
    while i < |trans|
      invariant i <= |trans|
      invariant transferMsgs == TransferLines(trans[..i])
    {
      var e := trans[i];
      transferMsgs := transferMsgs + ["transfer " + ToDecimal(e.1) + " to " + e.0];
      i := i + 1;
      TransferLinesSnoc(trans, i);
    }
    assert trans[..i] == trans;
    body := JoinLines(transferMsgs);
  }

  lemma {:induction false} TransferLinesSnoc(m: Entries, i: nat)
    requires 0 < i <= |m|
    ensures TransferLines(m[..i]) == TransferLines(m[..i - 1]) + [TransferLine(m[i - 1])]
  {
    assert m[..i] == m[..i - 1] + [m[i - 1]];
    TransferLinesAppend(m[..i - 1], [m[i - 1]]);
    assert [m[i - 1]][1..] == [];
  }

  lemma {:induction false} TransferLinesAppend(a: Entries, b: Entries)
    ensures TransferLines(a + b) == TransferLines(a) + TransferLines(b)
  {
    if a == [] {
      assert a + b == b;
    } else {
      assert (a + b)[0] == a[0] && (a + b)[1..] == a[1..] + b;
      TransferLinesAppend(a[1..], b);
    }
  }

  // ---- Reading a field back ----

  /** The entry a line `transfer <amount> to <name>` stands for. */
  function DecodeTransfer(line: string): Option<(string, int)> {
    if !StartsWith(line, "transfer ") then None else DecodeAmountTo(line[9..])
  }

  /** `<amount> to <name>`, the amount an optional '-' and a run of digits. */
  function DecodeAmountTo(t: string): Option<(string, int)> {
    if t != [] && t[0] == '-' then DecodeMagnitude(t[1..], true) else DecodeMagnitude(t, false)
  }

  function DecodeMagnitude(u: string, neg: bool): Option<(string, int)> {
    var k := LeadingDigits(u);
    LeadingDigitsMaximal(u);
    if k == 0 || !StartsWith(u[k..], " to ") then None
    else Some((u[k + 4..], if neg then 0 - DigitsValue(u[..k]) else DigitsValue(u[..k])))
  }

  function DecodeLines(lines: seq<string>): Option<Entries> {
    if lines == [] then Some([])
    else match (DecodeTransfer(lines[0]), DecodeLines(lines[1..]))
      case (Some(e), Some(rest)) => Some([e] + rest)
      case _ => None
  }

  /** The entries a field body lists; the empty body lists none. */
  function DecodeField(body: string): Option<Entries> {
    if body == "" then Some([]) else DecodeLines(SplitLines(body))
  }

  lemma DecodeMagnitudeOf(n: nat, neg: bool, name: string)
    ensures DecodeMagnitude(Digits(n) + " to " + name, neg) == Some((name, if neg then 0 - n else n))
  {
    var d := Digits(n);
    var tail := " to " + name;
    var u := d + tail;
    assert u == Digits(n) + " to " + name;
    LeadingDigitsOfRun(d, tail);
    DigitsValueOfDigits(n);
    assert u[..|d|] == d;
    assert u[|d|..] == tail;
    assert u[|d| + 4..] == name;
  }

  lemma DecodeAmountToOf(v: int, name: string)
    ensures DecodeAmountTo(ToDecimal(v) + " to " + name) == Some((name, v))
  {
    var t := ToDecimal(v) + " to " + name;
    if v < 0 {
      assert t == "-" + (Digits(-v) + " to " + name);
      assert t[1..] == Digits(-v) + " to " + name;
      DecodeMagnitudeOf(-v, true, name);
    } else {
      assert Digits(v)[0] != '-';
      DecodeMagnitudeOf(v, false, name);
    }
  }

  lemma DecodeTransferLine(e: (string, int))
    ensures DecodeTransfer(TransferLine(e)) == Some(e)
  {
    var line := TransferLine(e);
    var t := ToDecimal(e.1) + " to " + e.0;
    assert line == "transfer " + t;
    assert line[9..] == t;
    DecodeAmountToOf(e.1, e.0);
  }

  lemma {:induction false} DecodeTransferLines(m: Entries)
    ensures DecodeLines(TransferLines(m)) == Some(m)
  {
    if m != [] {
      DecodeTransferLine(m[0]);
      DecodeTransferLines(m[1..]);
      assert TransferLines(m)[1..] == TransferLines(m[1..]);
      assert m == [m[0]] + m[1..];
    }
  }

  lemma TransferLineNoNewline(e: (string, int))
    requires '\n' !in e.0
    ensures '\n' !in TransferLine(e)
  {
    var n: nat := if e.1 < 0 then -e.1 else e.1;
    var line := TransferLine(e);
    var mid := ToDecimal(e.1);
    assert forall j :: 0 <= j < |mid| ==> mid[j] == '-' || IsDigit(mid[j]);
    forall j | 0 <= j < |line| ensures line[j] != '\n' {
      if j < 9 {
      } else if j < 9 + |mid| {
        assert line[j] == mid[j - 9];
      } else if j < 13 + |mid| {
      } else {
        assert line[j] == e.0[j - 13 - |mid|];
      }
    }
  }

  /** buildField loses nothing: the body read back line by line gives the
      entries, in order, provided no name holds a "\n". */
  lemma FieldRoundTrip(m: Entries)
    requires forall j :: 0 <= j < |m| ==> '\n' !in m[j].0
    ensures DecodeField(FieldText(m)) == Some(m)
  {
    var lines := TransferLines(m);
    TransferLinesAt(m);
    if m == [] {
      assert FieldText(m) == "";
    } else {
      forall j | 0 <= j < |lines| ensures '\n' !in lines[j] {
        TransferLineNoNewline(m[j]);
      }
      SplitJoin(lines);
      assert FieldText(m) != "" by {
        assert |lines[0]| > 0;
        JoinLinesPrefix(lines);
      }
      DecodeTransferLines(m);
    }
  }
}
