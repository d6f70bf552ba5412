/** Character classes of JavaScript regular expressions and the "\n"-separated
    lines the handler's input and output are made of. */
module Text {

  /** The characters matched by `\s`; parseInt skips the same set before a number. */
  const JsSpaces: set<char> := {
    '\t', '\n', '\U{000B}', '\U{000C}', '\r', ' ', '\U{00A0}', '\U{1680}',
    '\U{2000}', '\U{2001}', '\U{2002}', '\U{2003}', '\U{2004}', '\U{2005}', '\U{2006}',
    '\U{2007}', '\U{2008}', '\U{2009}', '\U{200A}',
    '\U{2028}', '\U{2029}', '\U{202F}', '\U{205F}', '\U{3000}', '\U{FEFF}'
  }

  /** Below U+00A0 the set is tab to carriage return and the space, which a range check decides. */
  predicate IsJsSpace(c: char) {
    if c < '\U{00A0}' then c == ' ' || '\t' <= c <= '\r' else c in JsSpaces
  }

  const LineTerminators: set<char> := {'\n', '\r', '\U{2028}', '\U{2029}'}

  /** The characters `.` does not match and after (or before) which `^` (`$`) matches in multiline mode. */
  predicate IsLineTerminator(c: char) {
    if c < '\U{2028}' then c == '\n' || c == '\r' else c in LineTerminators
  }

  predicate NoLineTerminator(s: string) {
    forall k :: 0 <= k < |s| ==> !IsLineTerminator(s[k])
  }

  predicate NoNewline(lines: seq<string>) {
    forall k :: 0 <= k < |lines| ==> '\n' !in lines[k]
  }

  predicate EndsWith(s: string, suffix: string) {
    |suffix| <= |s| && s[|s| - |suffix|..] == suffix
  }

  predicate StartsWith(s: string, prefix: string) {
    |prefix| <= |s| && s[..|prefix|] == prefix
  }

  /** `lines.join('\n')` */
  function JoinLines(lines: seq<string>): string
  {
    if |lines| == 0 then ""
    else if |lines| == 1 then lines[0]
    else lines[0] + "\n" + JoinLines(lines[1..])
  }

  /** A join starts with its first line. */
  lemma JoinLinesPrefix(lines: seq<string>)
    requires |lines| >= 1
    ensures |lines[0]| <= |JoinLines(lines)| && JoinLines(lines)[..|lines[0]|] == lines[0]
  {
    if |lines| > 1 {
      assert JoinLines(lines) == lines[0] + ("\n" + JoinLines(lines[1..]));
    }
  }

  /** The text cut at every "\n"; a text without one is a single line. */
  function SplitLines(s: string): (lines: seq<string>)
    ensures |lines| >= 1 && NoNewline(lines)
  {
    if s == [] then [""]
    else
      var rest := SplitLines(s[1..]);
      if s[0] == '\n' then [""] + rest else [[s[0]] + rest[0]] + rest[1..]
  }

  lemma {:induction false} SplitPrefix(w: string, t: string)
    requires '\n' !in w
    ensures SplitLines(w + t) == [w + SplitLines(t)[0]] + SplitLines(t)[1..]
  {
    if w != [] {
      assert (w + t)[1..] == w[1..] + t;
      SplitPrefix(w[1..], t);
      assert [w[0]] + (w[1..] + SplitLines(t)[0]) == w + SplitLines(t)[0];
    } else {
      var l := SplitLines(t);
      assert w + t == t && w + l[0] == l[0];
      assert l == [l[0]] + l[1..];
    }
  }

  /** Joining the lines of a text gives the text back. */
  lemma {:induction false} JoinSplit(s: string)
    ensures JoinLines(SplitLines(s)) == s
  {
    if s != [] {
      JoinSplit(s[1..]);
      var rest := SplitLines(s[1..]);
      if s[0] == '\n' {
        assert s == "\n" + s[1..];
      } else if |rest| == 1 {
        assert s == [s[0]] + s[1..];
      } else {
        assert JoinLines(rest) == rest[0] + "\n" + JoinLines(rest[1..]);
        var out := SplitLines(s);
        assert out[1..] == rest[1..];
        assert s == [s[0]] + s[1..];
      }
    }
  }

  /** Splitting a join of lines free of "\n" gives the lines back. */
  lemma {:induction false} SplitJoin(lines: seq<string>)
    requires |lines| >= 1 && NoNewline(lines)
    ensures SplitLines(JoinLines(lines)) == lines
  {
    if |lines| == 1 {
      SplitPrefix(lines[0], "");
      assert lines[0] + "" == lines[0];
    } else {
      SplitJoin(lines[1..]);
      var t := "\n" + JoinLines(lines[1..]);
      SplitPrefix(lines[0], t);
      assert t[1..] == JoinLines(lines[1..]);
      assert SplitLines(t) == [""] + lines[1..];
      assert lines[0] + "" == lines[0];
      assert JoinLines(lines) == lines[0] + t;
    }
  }

  /** The blocks one after another. */
  function Flatten(blocks: seq<seq<string>>): seq<string> {
    if blocks == [] then [] else blocks[0] + Flatten(blocks[1..])
  }

  /** Blocks of six: block k is lines 6k to 6k+5 of the flattening. */
  lemma {:induction false} FlattenBlock(blocks: seq<seq<string>>, k: nat)
    requires forall t :: 0 <= t < |blocks| ==> |blocks[t]| == 6
    requires k < |blocks|
    ensures |Flatten(blocks)| == 6 * |blocks|
    ensures Flatten(blocks)[6 * k..6 * k + 6] == blocks[k]
  {
    var rest := blocks[1..];
    if k > 0 {
      FlattenBlock(rest, k - 1);
      assert Flatten(blocks) == blocks[0] + Flatten(rest);
      assert Flatten(blocks)[6 * k..6 * k + 6] == Flatten(rest)[6 * (k - 1)..6 * (k - 1) + 6];
    } else if |rest| > 0 {
      FlattenBlock(rest, 0);
    } else {
      assert Flatten(blocks) == blocks[0];
    }
  }

  lemma {:induction false} FlattenNoNewline(blocks: seq<seq<string>>)
    requires forall t :: 0 <= t < |blocks| ==> NoNewline(blocks[t])
    ensures NoNewline(Flatten(blocks))
  {
    if blocks != [] {
      FlattenNoNewline(blocks[1..]);
      var f := Flatten(blocks);
      forall i | 0 <= i < |f| ensures '\n' !in f[i] {
        if i >= |blocks[0]| {
          assert f[i] == Flatten(blocks[1..])[i - |blocks[0]|];
        } else {
          assert f[i] == blocks[0][i];
        }
      }
    }
  }
}
