/** The pieces of Rust's standard library that the text readers rely on:
    `str::lines` and `char::is_whitespace`.  A Rust `char` is a Unicode
    scalar value, as a Dafny `char` is, so `chars()` is the sequence itself. */
module Text {
  import Seqs
  import opened Geometry

  /** `char::is_whitespace`: the characters with the Unicode White_Space property. */
  predicate IsWhitespace(c: char) {
    ('\U{9}' <= c <= '\U{D}') || c == ' ' || c == '\U{85}' || c == '\U{A0}' || c == '\U{1680}' ||
    ('\U{2000}' <= c <= '\U{200A}') || c == '\U{2028}' || c == '\U{2029}' || c == '\U{202F}' ||
    c == '\U{205F}' || c == '\U{3000}'
  }

  predicate IsLineFeed(c: char) {
    c == '\n'
  }

  /** A line ended by a line feed loses one carriage return before it. */
  function StripCr(line: string): string {
    if line != [] && line[|line| - 1] == '\r' then line[..|line| - 1] else line
  }

  /** `str::lines`: the pieces between line feeds, each ended by a line feed
      losing a carriage return before it; a last line feed does not start
      an empty last line, and an unended last piece is kept as it is. */
  function Lines(s: string): seq<string>
    decreases |s|
  {
    match Seqs.First(s, IsLineFeed)
    case None => if s == [] then [] else [s]
    case Some(k) => [StripCr(s[..k])] + Lines(s[k + 1..])
  }

  /** Every line ended by a line feed, the way a text file is written. */
  function Terminated(lines: seq<string>): string {
    if lines == [] then [] else lines[0] + "\n" + Terminated(lines[1..])
  }

  /** No line that `lines` gives holds a line feed. */
  lemma {:induction false} LinesHaveNoFeeds(s: string)
    ensures forall i :: 0 <= i < |Lines(s)| ==> '\n' !in Lines(s)[i]
    decreases |s|
  {
    match Seqs.First(s, IsLineFeed)
    case None =>
    case Some(k) =>
      LinesHaveNoFeeds(s[k + 1..]);
      assert forall j :: 0 <= j < k ==> s[..k][j] == s[j];
  }

  /** A text without line feeds is one line, or none when empty. */
  lemma OneLine(s: string)
    requires '\n' !in s
    ensures Lines(s) == if s == [] then [] else [s]
  {
    match Seqs.First(s, IsLineFeed)
    case None =>
    case Some(k) =>
      assert false;
  }

  /** `lines` reads back the lines that were written one per line, as long
      as none holds a line feed or ends with a carriage return. */
  lemma {:induction false} LinesOfTerminated(lines: seq<string>)
    requires forall i :: 0 <= i < |lines| ==> '\n' !in lines[i] && StripCr(lines[i]) == lines[i]
    ensures Lines(Terminated(lines)) == lines
  {
    if lines != [] {
      var l, rest := lines[0], lines[1..];
      var s := Terminated(lines);
      assert s == l + "\n" + Terminated(rest);
      var k := |l|;
      assert s[k] == '\n' && forall j :: 0 <= j < k ==> s[j] == l[j];
      match Seqs.First(s, IsLineFeed)
      case None =>
        assert false;
      case Some(k') =>
        assert k' == k;
        assert s[..k] == l;
        assert s[k + 1..] == Terminated(rest);
        LinesOfTerminated(rest);
    }
  }
}
