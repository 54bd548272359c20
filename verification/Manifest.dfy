/** The daily manifest as text: one JSON line per entry, and how it is read back. */
module Manifest {
  import opened Seqs
  import opened HashChain

  // --- Lines ---

  /** Where Python's str.splitlines breaks a line. */
  predicate IsLineBreak(c: char) {
    var n := c as int;
    (0x0A <= n <= 0x0D) || (0x1C <= n <= 0x1E) || n == 0x85 || n == 0x2028 || n == 0x2029
  }

  predicate OneLine(s: string) {
    forall k | 0 <= k < |s| :: !IsLineBreak(s[k])
  }

  function FirstBreak(s: string): (i: nat)
    ensures i <= |s| && (i < |s| ==> IsLineBreak(s[i]))
    ensures forall k | 0 <= k < i :: !IsLineBreak(s[k])
  {
    if s == "" || IsLineBreak(s[0]) then 0 else 1 + FirstBreak(s[1..])
  }

  function SplitLines(s: string): seq<string> {
    if s == "" then []
    else
      var i := FirstBreak(s);
      if i == |s| then [s]
      else
        var skip := if s[i] == '\r' && i + 1 < |s| && s[i + 1] == '\n' then 2 else 1;
        [s[..i]] + SplitLines(s[i + skip..])
  }

  /** `"\n".join(lines)` */
  function Join(lines: seq<string>): string {
    if lines == [] then "" else if |lines| == 1 then lines[0] else lines[0] + "\n" + Join(lines[1..])
  }

  /** The text of a manifest. */
  function Body(lines: seq<string>): string {
    Join(lines) + "\n"
  }

  /** The lines, each with a newline behind it. */
  function Terminated(lines: seq<string>): string {
    if lines == [] then "" else Terminated(lines[..|lines| - 1]) + lines[|lines| - 1] + "\n"
  }

  lemma {:induction false} BodyIs(lines: seq<string>)
    requires lines != []
    ensures Body(lines) == Terminated(lines)
  {
    var n := |lines| - 1;
    if n > 0 {
      BodyIs(lines[..n]);
      JoinSnoc(lines[..n], lines[n]);
      assert lines[..n] + [lines[n]] == lines;
      assert Body(lines) == Body(lines[..n]) + lines[n] + "\n";
    }
  }

  lemma {:induction false} JoinSnoc(lines: seq<string>, last: string)
    requires lines != []
    ensures Join(lines + [last]) == Join(lines) + "\n" + last
  {
    var all := lines + [last];
    assert all[1..] == lines[1..] + [last];
    if |lines| == 1 {
      assert all[1..] == [last];
      assert Join(all) == lines[0] + "\n" + Join([last]);
    } else {
      JoinSnoc(lines[1..], last);
      assert Join(all) == lines[0] + "\n" + (Join(lines[1..]) + "\n" + last);
      assert Join(lines) == lines[0] + "\n" + Join(lines[1..]);
    }
  }

  lemma {:induction false} FirstBreakIs(s: string, i: nat)
    requires i < |s| && IsLineBreak(s[i]) && forall k | 0 <= k < i :: !IsLineBreak(s[k])
    ensures FirstBreak(s) == i
  {
    var j := FirstBreak(s);
  }

  /** Writing lines and splitting them again. */
  lemma {:induction false} SplitBody(lines: seq<string>)
    requires lines != [] && forall l | l in lines :: OneLine(l)
    ensures SplitLines(Body(lines)) == lines
  {
    hide FirstBreak;
    var rest := if |lines| == 1 then "" else Body(lines[1..]);
    assert lines[0] in lines && forall l | l in lines[1..] :: l in lines;
    assert Body(lines) == lines[0] + "\n" + rest;
    SplitFirst(lines[0], rest);
    if |lines| > 1 {
      SplitBody(lines[1..]);
    }
    assert lines == [lines[0]] + lines[1..];
  }

  lemma {:induction false} SplitFirst(l: string, rest: string)
    requires OneLine(l)
    ensures SplitLines(l + "\n" + rest) == [l] + SplitLines(rest)
  {
    var s := l + "\n" + rest;
    assert s[|l|] == '\n' && forall k | 0 <= k < |l| :: s[k] == l[k];
    FirstBreakIs(s, |l|);
    assert s[..|l|] == l && s[|l| + 1..] == rest;
  }

  // --- Entries as text ---

  /** The libraries around the manifest: UTF-8, and the JSON form of an entry. */
  datatype Codec = Codec(
    encode: string -> seq<byte>,
    decode: seq<byte> -> Option<string>,
    toJsonl: ChainEntry -> string,
    fromJsonl: string -> Option<ChainEntry>)

  /** Both pairs are inverse, and an entry's JSON form stays on one line. */
  ghost predicate Faithful(c: Codec) {
    && (forall s :: c.decode(c.encode(s)) == Some(s))
    && (forall e :: c.fromJsonl(c.toJsonl(e)) == Some(e))
    && (forall e :: OneLine(c.toJsonl(e)))
  }

  function Lines(c: Codec, entries: seq<ChainEntry>): (lines: seq<string>)
    ensures |lines| == |entries|
    ensures forall i | 0 <= i < |entries| :: lines[i] == c.toJsonl(entries[i])
  {
    if entries == [] then [] else Lines(c, entries[..|entries| - 1]) + [c.toJsonl(entries[|entries| - 1])]
  }

  function Write(c: Codec, entries: seq<ChainEntry>): seq<byte> {
    c.encode(Body(Lines(c, entries)))
  }

  /** Reading every line, as the verification tool does; nothing if the bytes or a line are unreadable. */
  function ParseLines(c: Codec, lines: seq<string>): Option<seq<ChainEntry>> {
    if lines == [] then Some([])
    else
      match (c.fromJsonl(lines[0]), ParseLines(c, lines[1..]))
      case (Some(e), Some(es)) => Some([e] + es)
      case _ => None
  }

  function Read(c: Codec, bytes: seq<byte>): Option<seq<ChainEntry>> {
    match c.decode(bytes)
    case None => None
    case Some(text) => ParseLines(c, SplitLines(text))
  }

  lemma {:induction false} ParseWritten(c: Codec, lines: seq<string>, entries: seq<ChainEntry>)
    requires Faithful(c) && |lines| == |entries|
    requires forall i | 0 <= i < |entries| :: lines[i] == c.toJsonl(entries[i])
    ensures ParseLines(c, lines) == Some(entries)
  {
    if lines != [] {
      ParseWritten(c, lines[1..], entries[1..]);
      assert entries == [entries[0]] + entries[1..];
    }
  }

  /** A written manifest splits into its lines and reads back as its entries. */
  lemma {:induction false} ReadWritten(c: Codec, entries: seq<ChainEntry>)
    requires Faithful(c) && entries != []
    ensures c.decode(Write(c, entries)) == Some(Body(Lines(c, entries)))
    ensures SplitLines(Body(Lines(c, entries))) == Lines(c, entries)
    ensures Read(c, Write(c, entries)) == Some(entries)
  {
    var lines := Lines(c, entries);
    SplitBody(lines);
    ParseWritten(c, lines, entries);
  }

  lemma {:induction false} WriteInjective(c: Codec, a: seq<ChainEntry>, b: seq<ChainEntry>)
    requires Faithful(c) && a != [] && b != [] && Write(c, a) == Write(c, b)
    ensures a == b
  {
    ReadWritten(c, a);
    ReadWritten(c, b);
  }
}
