/** The text codec of wfc/src/stringtools.rs.  `deconstruct_string` turns a
    text sample into a grid of ids, indexed [x][y], and a symbol table that
    gives every distinct char an id in order of first appearance;
    `reconstruct_string` renders an id grid back as text, optionally in bold
    and colour; `construct_wip_string` renders a grid of candidate-id lists,
    each cell as its sorted chars in brackets. */
module StringTools {
  import opened Geometry
  import Seqs
  import Text
  import Grids

  // ----------------------------------------------------------------------
  // Symbols and the symbol table

  /** The chars of a line that the sample keeps: all of them with
      `use_whitespace`, otherwise those that are not whitespace. */
  function Shown(useWhitespace: bool): char -> bool {
    c => useWhitespace || !Text.IsWhitespace(c)
  }

  function Visible(line: string, useWhitespace: bool): string {
    Seqs.Filter(line, Shown(useWhitespace))
  }

  function Visibles(lines: seq<string>, useWhitespace: bool): seq<string> {
    seq(|lines|, r requires 0 <= r < |lines| => Visible(lines[r], useWhitespace))
  }

  /** The lines one after the other. */
  function Joined(texts: seq<string>): string {
    if texts == [] then [] else Joined(texts[..|texts| - 1]) + texts[|texts| - 1]
  }

  /** The distinct chars of `text`, in order of first appearance. */
  function Symbols(text: string): string {
    if text == [] then []
    else
      var prev := Symbols(text[..|text| - 1]);
      if text[|text| - 1] in prev then prev else prev + [text[|text| - 1]]
  }

  /** The symbol table: id `i` stands for `symbols[i]`. */
  function Table(symbols: string): seq<(nat, char)> {
    seq(|symbols|, i requires 0 <= i < |symbols| => (i, symbols[i]))
  }

  lemma TableAt(symbols: string)
    ensures |Table(symbols)| == |symbols|
    ensures forall i :: 0 <= i < |symbols| ==> Table(symbols)[i] == (i, symbols[i])
  {
  }

  /** One more char of the line: shown or skipped. */
  lemma VisibleSnoc(line: string, i: nat, useWhitespace: bool)
    requires i < |line|
    ensures Visible(line[..i + 1], useWhitespace) ==
              Visible(line[..i], useWhitespace) + (if Shown(useWhitespace)(line[i]) then [line[i]] else [])
  {
    assert line[..i + 1][..i] == line[..i];
  }

  /** A new symbol adds one entry with the next id. */
  lemma TableSnoc(symbols: string, ch: char)
    ensures Table(symbols + [ch]) == Table(symbols) + [(|symbols|, ch)]
  {
    TableAt(symbols);
    TableAt(symbols + [ch]);
  }

  /** Encodings stay valid when the symbols grow at the end, and grow by
      one id when the text grows by the char of that id. */
  lemma EncodesSnoc(row: seq<nat>, text: string, symbols: string, symbols': string, id: nat, ch: char)
    requires Encodes(row, text, symbols)
    requires |symbols| <= |symbols'| && symbols'[..|symbols|] == symbols
    requires id < |symbols'| && symbols'[id] == ch
    ensures Encodes(row + [id], text + [ch], symbols')
  {
    forall k | 0 <= k < |row|
      ensures symbols'[row[k]] == text[k]
    {
      assert symbols'[row[k]] == symbols'[..|symbols|][row[k]];
    }
  }

  predicate Distinct(s: string) {
    forall i, j :: 0 <= i < j < |s| ==> s[i] != s[j]
  }

  function Is(c: char): char -> bool {
    d => d == c
  }

  function Translates(ch: char): ((nat, char)) -> bool {
    (t: (nat, char)) => t.1 == ch
  }

  function HasKey(id: nat): ((nat, char)) -> bool {
    (t: (nat, char)) => t.0 == id
  }

  /** The char the table gives for `id`: the first entry with that id, as
      `source_map.iter().find(|s| s.0 == id)` looks it up. */
  function Lookup(sourceMap: seq<(nat, char)>, id: nat): Option<char> {
    match Seqs.First(sourceMap, HasKey(id))
    case None => None
    case Some(k) => Some(sourceMap[k].1)
  }

  predicate Known(sourceMap: seq<(nat, char)>, id: nat) {
    Lookup(sourceMap, id).Some?
  }

  /** `row` spells `text` in ids of `symbols`. */
  ghost predicate Encodes(row: seq<nat>, text: string, symbols: string) {
    |row| == |text| && forall k :: 0 <= k < |row| ==> row[k] < |symbols| && symbols[row[k]] == text[k]
  }

  /** Every row is at least as long as the first: `xy_swap` reads the first
      row's length from every row. */
  predicate Fits<T>(rows: seq<seq<T>>)
    requires rows != []
  {
    forall r :: 0 <= r < |rows| ==> |rows[0]| <= |rows[r]|
  }

  /** The grid `xy_swap` makes: `out[c][r] == rows[r][c]`. */
  function Transposed<T>(rows: seq<seq<T>>): (out: seq<seq<T>>)
    requires rows != [] && Fits(rows)
  {
    seq(|rows[0]|, c requires 0 <= c < |rows[0]| =>
      seq(|rows|, r requires 0 <= r < |rows| => rows[r][c]))
  }

  /** What `xy_swap` promises pins its result down as `Transposed`. */
  lemma IsTransposed<T>(rows: seq<seq<T>>, out: seq<seq<T>>)
    requires rows != [] && Fits(rows)
    requires |out| == |rows[0]| && forall c :: 0 <= c < |out| ==> |out[c]| == |rows|
    requires forall c, r :: 0 <= c < |out| && 0 <= r < |rows| ==> out[c][r] == rows[r][c]
    ensures out == Transposed(rows)
  {
    var t := Transposed(rows);
    forall c | 0 <= c < |out|
      ensures out[c] == t[c]
    {
      assert |out[c]| == |t[c]|;
    }
  }

  // ----------------------------------------------------------------------
  // deconstruct_string

  /** One shown char: its id is the one the table has for it, or the next
      id, which the table then records. */
  method InternChar(ch: char, row: seq<nat>, table: seq<(nat, char)>, idCounter: nat,
                    ghost shown: string, ghost before: string)
    returns (row': seq<nat>, table': seq<(nat, char)>, idCounter': nat)
    requires table == Table(Symbols(before)) && idCounter == |table|
    requires Encodes(row, shown, Symbols(before))
    ensures table' == Table(Symbols(before + [ch])) && idCounter' == |table'|
    ensures Encodes(row', shown + [ch], Symbols(before + [ch]))
  {
    InternStep(before, ch);
    SymbolsPrefix(before, [ch]);
    match Seqs.First(table, Translates(ch)) {
      case Some(k) =>
        EncodesSnoc(row, shown, Symbols(before), Symbols(before + [ch]), k, ch);
        row', table', idCounter' := row + [table[k].0], table, idCounter;
      case None =>
        TableSnoc(Symbols(before), ch);
        EncodesSnoc(row, shown, Symbols(before), Symbols(before + [ch]), idCounter, ch);
        row', table', idCounter' := row + [idCounter], table + [(idCounter, ch)], idCounter + 1;
    }
  }

  /** The char loop of `deconstruct_string` for one line: each shown char
      is interned, whitespace is skipped unless `use_whitespace`. */
  method InternLine(line: string, useWhitespace: bool, table: seq<(nat, char)>, ghost seen: string)
    returns (row: seq<nat>, next: seq<(nat, char)>)
    requires table == Table(Symbols(seen))
    ensures next == Table(Symbols(seen + Visible(line, useWhitespace)))
    ensures Encodes(row, Visible(line, useWhitespace), Symbols(seen + Visible(line, useWhitespace)))
  {
    row := [];
    next := table;
    var idCounter: nat := |table|;
    ghost var shown: string := [];
    assert seen + shown == seen;
    for i := 0 to |line|
      invariant shown == Visible(line[..i], useWhitespace)
      invariant next == Table(Symbols(seen + shown))
      invariant idCounter == |next|
      invariant Encodes(row, shown, Symbols(seen + shown))
    {
      var ch := line[i];
      VisibleSnoc(line, i, useWhitespace);
      if useWhitespace || !Text.IsWhitespace(ch) {
        SnocAssoc(seen, shown, ch);
        row, next, idCounter := InternChar(ch, row, next, idCounter, shown, seen + shown);
        shown := shown + [ch];
      }
    }
    assert line[..|line|] == line;
  }

  /** `deconstruct_string`: the lines of `input`, each read into a row of
      ids (whitespace skipped unless `use_whitespace`), then turned by
      `xy_swap` into a grid indexed [x][y].  `xy_swap` needs at least one
      line, and no row shorter than the first. */
  method DeconstructString(input: string, useWhitespace: bool) returns (sample: seq<seq<nat>>, sourceMap: seq<(nat, char)>)
    requires Text.Lines(input) != []
    requires Fits(Visibles(Text.Lines(input), useWhitespace))
    ensures var vis := Visibles(Text.Lines(input), useWhitespace);
            sourceMap == Table(Symbols(Joined(vis))) && SampleOf(sample, vis, Symbols(Joined(vis)))
  {
    var lines := Text.Lines(input);
    var rows;
    rows, sourceMap := InternLines(lines, useWhitespace);
    ghost var vis := Visibles(lines, useWhitespace);
    TransposedEncodes(rows, vis, Symbols(Joined(vis)));
    sample := Grids.XySwap(rows);
    IsTransposed(rows, sample);
  }

  /** The line loop of `deconstruct_string`: one row of ids per line, all
      lines sharing one table. */
  method InternLines(lines: seq<string>, useWhitespace: bool) returns (rows: seq<seq<nat>>, sourceMap: seq<(nat, char)>)
    ensures var vis := Visibles(lines, useWhitespace);
            |rows| == |lines| && sourceMap == Table(Symbols(Joined(vis))) &&
            AllEncode(rows, vis, Symbols(Joined(vis)))
  {
    ghost var vis := Visibles(lines, useWhitespace);
    rows := [];
    sourceMap := [];
    ghost var seen: string := [];
    for r := 0 to |lines|
      invariant |rows| == r
      invariant seen == Joined(vis[..r])
      invariant sourceMap == Table(Symbols(seen))
      invariant AllEncode(rows, vis[..r], Symbols(seen))
    {
      var row, next := InternLine(lines[r], useWhitespace, sourceMap, seen);
      assert vis[r] == Visible(lines[r], useWhitespace);
      SymbolsPrefix(seen, vis[r]);
      AllEncodeSnoc(rows, vis, r, Symbols(seen), Symbols(seen + vis[r]), row);
      JoinedSnoc(vis, r);
      rows := rows + [row];
      sourceMap := next;
      seen := seen + vis[r];
    }
    assert vis[..|lines|] == vis;
  }

  lemma JoinedSnoc(texts: seq<string>, r: nat)
    requires r < |texts|
    ensures Joined(texts[..r + 1]) == Joined(texts[..r]) + texts[r]
  {
    assert texts[..r + 1][..r] == texts[..r];
  }

  /** Row `k` spells line `k`, for every row. */
  ghost predicate AllEncode(rows: seq<seq<nat>>, vis: seq<string>, symbols: string) {
    |rows| == |vis| && forall k :: 0 <= k < |rows| ==> Encodes(rows[k], vis[k], symbols)
  }

  lemma AllEncodeSnoc(rows: seq<seq<nat>>, vis: seq<string>, r: nat, symbols: string, symbols': string, row: seq<nat>)
    requires r < |vis| && AllEncode(rows, vis[..r], symbols)
    requires |symbols| <= |symbols'| && symbols'[..|symbols|] == symbols
    requires Encodes(row, vis[r], symbols')
    ensures AllEncode(rows + [row], vis[..r + 1], symbols')
  {
    forall k | 0 <= k < r
      ensures Encodes(rows[k], vis[k], symbols')
    {
      assert vis[..r][k] == vis[k];
      EncodesGrow(rows[k], vis[k], symbols, symbols');
    }
  }

  /** Encodings stay valid when the symbols grow at the end. */
  lemma EncodesGrow(row: seq<nat>, text: string, symbols: string, symbols': string)
    requires Encodes(row, text, symbols)
    requires |symbols| <= |symbols'| && symbols'[..|symbols|] == symbols
    ensures Encodes(row, text, symbols')
  {
    forall k | 0 <= k < |row|
      ensures symbols'[row[k]] == text[k]
    {
      assert symbols'[row[k]] == symbols'[..|symbols|][row[k]];
    }
  }

  /** `xy_swap` of rows that encode the shown lines is the sample grid. */
  lemma TransposedEncodes(rows: seq<seq<nat>>, vis: seq<string>, symbols: string)
    requires vis != [] && Fits(vis) && AllEncode(rows, vis, symbols)
    ensures Fits(rows) && SampleOf(Transposed(rows), vis, symbols)
  {
    assert forall k :: 0 <= k < |rows| ==> |rows[k]| == |vis[k]|;
    assert |rows[0]| == |vis[0]|;
    assert forall k :: 0 <= k < |rows| ==> |rows[k]| == |vis[k]|;
  }

  /** `sample` is the [x][y] grid of the ids of the shown chars of `vis`. */
  ghost predicate SampleOf(sample: seq<seq<nat>>, vis: seq<string>, symbols: string)
    requires vis != [] && Fits(vis)
  {
    |sample| == |vis[0]| &&
    forall c :: 0 <= c < |sample| ==>
      |sample[c]| == |vis| &&
      forall r :: 0 <= r < |vis| ==> sample[c][r] < |symbols| && symbols[sample[c][r]] == vis[r][c]
  }

  // ----------------------------------------------------------------------
  // reconstruct_string

  const Bold: string := "\U{1B}[1m"
  const Reset: string := "\U{1B}[0m"

  /** The colour `reconstruct_string` gives a char: blue for 'S', yellow
      for 'C', green for 'L', magenta for the rest. */
  function ColorCode(ch: char): string {
    if ch == 'S' then "34m" else if ch == 'C' then "33m" else if ch == 'L' then "32m" else "35m"
  }

  /** One cell: the colour escape when `use_color`, then the char and ", ". */
  function Painted(ch: char, useColor: bool): string {
    (if useColor then "\U{1B}[" + ColorCode(ch) else "") + [ch] + ", "
  }

  function RowText(row: string, useColor: bool): string {
    if row == [] then [] else RowText(row[..|row| - 1], useColor) + Painted(row[|row| - 1], useColor)
  }

  /** The rows with a newline between consecutive ones. */
  function Rendered(rows: seq<string>, useColor: bool): string {
    if rows == [] then []
    else Rendered(rows[..|rows| - 1], useColor) + (if |rows| > 1 then "\n" else "") + RowText(rows[|rows| - 1], useColor)
  }

  /** What `reconstruct_string` prints for rows of chars. */
  function Reconstructed(rows: seq<string>, useColor: bool, bold: bool): string {
    (if bold then Bold else "") + Rendered(rows, useColor) + (if bold || useColor then Reset else "")
  }

  /** The char of a known id. */
  function Decode(sourceMap: seq<(nat, char)>, id: nat): char
    requires Known(sourceMap, id)
  {
    Lookup(sourceMap, id).value
  }

  /** The chars of a row of ids. */
  function Decoded(row: seq<nat>, sourceMap: seq<(nat, char)>): string
    requires forall k :: 0 <= k < |row| ==> Known(sourceMap, row[k])
  {
    seq(|row|, k requires 0 <= k < |row| => Decode(sourceMap, row[k]))
  }

  function DecodedRows(rows: seq<seq<nat>>, sourceMap: seq<(nat, char)>): seq<string>
    requires forall r, k :: 0 <= r < |rows| && 0 <= k < |rows[r]| ==> Known(sourceMap, rows[r][k])
  {
    seq(|rows|, r requires 0 <= r < |rows| => Decoded(rows[r], sourceMap))
  }

  /** Every id `xy_swap` reads from `input` is in the table. */
  predicate AllKnown(input: seq<seq<nat>>, sourceMap: seq<(nat, char)>)
    requires input != []
  {
    forall c, r :: 0 <= c < |input| && 0 <= r < |input[0]| && r < |input[c]| ==> Known(sourceMap, input[c][r])
  }

  /** The id loop of `reconstruct_string` for one row. */
  method RenderRow(row: seq<nat>, sourceMap: seq<(nat, char)>, useColor: bool) returns (text: string)
    requires forall k :: 0 <= k < |row| ==> Known(sourceMap, row[k])
    ensures text == RowText(Decoded(row, sourceMap), useColor)
  {
    text := "";
    for k := 0 to |row|
      invariant text == RowText(Decoded(row[..k], sourceMap), useColor)
    {
      var realVal := Lookup(sourceMap, row[k]).value;
      var cell := "";
      if useColor {
        cell := "\U{1B}[";
        if realVal == 'S' {
          cell := cell + "34m";
        } else if realVal == 'C' {
          cell := cell + "33m";
        } else if realVal == 'L' {
          cell := cell + "32m";
        } else {
          cell := cell + "35m";
        }
      }
      cell := cell + [realVal] + ", ";
      assert cell == Painted(realVal, useColor);
      text := text + cell;
      ghost var d := Decoded(row[..k + 1], sourceMap);
      assert d[..k] == Decoded(row[..k], sourceMap) && d[k] == realVal;
    }
    assert row[..|row|] == row;
  }

  /** `reconstruct_string`: `xy_swap` turns the [x][y] grid into rows,
      each row is rendered cell by cell, a newline goes between rows, the
      whole is bold when asked, and a style reset ends it when bold or
      colour was used.  Every id read must be in the table. */
  method ReconstructString(input: seq<seq<nat>>, sourceMap: seq<(nat, char)>, useColor: bool, bold: bool)
    returns (output: string)
    requires input != [] && Fits(input) && AllKnown(input, sourceMap)
    ensures output == Reconstructed(DecodedRows(Transposed(input), sourceMap), useColor, bold)
  {
    var swapped := Grids.XySwap(input);
    IsTransposed(input, swapped);
    ghost var rows := DecodedRows(swapped, sourceMap);
    ghost var head := if bold then Bold else "";
    output := "";
    if bold {
      output := output + Bold;
    }
    var lines := 1;
    for r := 0 to |swapped|
      invariant lines == if r == 0 then 1 else r
      invariant output == head + Rendered(rows[..r], useColor)
    {
      ghost var sep := if r > 0 then "\n" else "";
      if lines < r + 1 {
        output := output + "\n";
        lines := lines + 1;
      }
      assert output == head + Rendered(rows[..r], useColor) + sep;
      var text := RenderRow(swapped[r], sourceMap, useColor);
      assert text == RowText(rows[r], useColor);
      output := output + text;
      RenderedSnoc(rows, r, useColor);
      Assoc(head, Rendered(rows[..r], useColor), sep, text);
    }
    assert rows[..|swapped|] == rows;
    if bold || useColor {
      output := output + Reset;
    }
  }

  lemma RenderedSnoc(rows: seq<string>, r: nat, useColor: bool)
    requires r < |rows|
    ensures Rendered(rows[..r + 1], useColor) ==
              Rendered(rows[..r], useColor) + (if r > 0 then "\n" else "") + RowText(rows[r], useColor)
  {
    assert rows[..r + 1][..r] == rows[..r];
  }

  lemma SnocAssoc(a: string, b: string, x: char)
    ensures a + (b + [x]) == (a + b) + [x]
  {
  }

  lemma Assoc(a: string, b: string, c: string, d: string)
    ensures a + b + c + d == a + (b + c + d)
  {
  }

  // ----------------------------------------------------------------------
  // Properties of deconstruct_string

  lemma {:induction false} SymbolsFacts(text: string)
    ensures Distinct(Symbols(text))
    ensures forall c :: c in Symbols(text) <==> c in text
  {
    if text != [] {
      var init := text[..|text| - 1];
      SymbolsFacts(init);
      assert text == init + [text[|text| - 1]];
    }
  }

  /** Reading more text only appends to the symbols. */
  lemma {:induction false} SymbolsPrefix(a: string, b: string)
    ensures |Symbols(a)| <= |Symbols(a + b)| && Symbols(a + b)[..|Symbols(a)|] == Symbols(a)
    decreases |b|
  {
    if b == [] {
      assert a + b == a;
    } else {
      var b' := b[..|b| - 1];
      SymbolsPrefix(a, b');
      assert (a + b)[..|a + b| - 1] == a + b';
    }
  }

  /** One more shown char: the table has an entry for it iff the char was
      seen before, and that entry's id is its symbol index; otherwise the
      char becomes the next symbol. */
  lemma InternStep(before: string, ch: char)
    ensures ch in before ==> Symbols(before + [ch]) == Symbols(before)
    ensures ch !in before ==> Symbols(before + [ch]) == Symbols(before) + [ch]
    ensures match Seqs.First(Table(Symbols(before)), Translates(ch))
            case Some(k) => ch in before && k < |Symbols(before)| && Symbols(before)[k] == ch
            case None => ch !in before
  {
    SymbolsFacts(before);
    assert (before + [ch])[..|before|] == before;
    var t := Table(Symbols(before));
    TableAt(Symbols(before));
    match Seqs.First(t, Translates(ch))
    case Some(k) =>
      assert Symbols(before)[k] == ch;
    case None =>
      assert forall k :: 0 <= k < |t| ==> Symbols(before)[k] != ch;
  }

  /** The position of the first appearance of `c` in `text`. */
  function FirstAt(text: string, c: char): nat
    requires c in text
  {
    Seqs.First(text, Is(c)).value
  }

  /** Symbols are listed in order of their first appearance in the text. */
  lemma {:induction false} SymbolsInOrder(text: string, i: nat, j: nat)
    requires i < j < |Symbols(text)|
    ensures Symbols(text)[i] in text && Symbols(text)[j] in text
    ensures FirstAt(text, Symbols(text)[i]) < FirstAt(text, Symbols(text)[j])
  {
    SymbolsFacts(text);
    var init, x := text[..|text| - 1], text[|text| - 1];
    var prev := Symbols(init);
    SymbolsFacts(init);
    assert text == init + [x];
    var a, b := Symbols(text)[i], Symbols(text)[j];
    if j < |prev| {
      SymbolsInOrder(init, i, j);
      FirstSnoc(init, x, a);
      FirstSnoc(init, x, b);
    } else {
      assert b == x && x !in init && a in init;
      FirstSnoc(init, x, a);
      Seqs.FirstIs(text, Is(x), Some(|init|));
    }
  }

  /** Appending a char leaves the first appearance of an old char alone. */
  lemma FirstSnoc(text: string, x: char, c: char)
    requires c in text
    ensures FirstAt(text + [x], c) == FirstAt(text, c)
  {
    Seqs.FirstIs(text + [x], Is(c), Seqs.First(text, Is(c)));
  }

  /** A table built from symbols gives each id its symbol. */
  lemma LookupTable(symbols: string, id: nat)
    requires id < |symbols|
    ensures Lookup(Table(symbols), id) == Some(symbols[id])
  {
    Seqs.FirstIs(Table(symbols), HasKey(id), Some(id));
  }

  /** The table `deconstruct_string` returns numbers its entries 0, 1,
      2, … and holds each shown char of the sample exactly once. */
  lemma TableFacts(text: string)
    ensures var table := Table(Symbols(text));
            (forall i :: 0 <= i < |table| ==> table[i].0 == i) &&
            (forall i, j :: 0 <= i < j < |table| ==> table[i].1 != table[j].1) &&
            forall c :: (exists i :: 0 <= i < |table| && table[i].1 == c) <==> c in text
  {
    var symbols := Symbols(text);
    var table := Table(symbols);
    SymbolsFacts(text);
    forall c | c in text
      ensures exists i :: 0 <= i < |table| && table[i].1 == c
    {
      var i :| 0 <= i < |symbols| && symbols[i] == c;
      assert table[i].1 == c;
    }
  }

  /** The ids follow the order in which the chars first appear. */
  lemma TableInOrder(text: string, i: nat, j: nat)
    requires i < j < |Table(Symbols(text))|
    ensures Table(Symbols(text))[i].1 in text && Table(Symbols(text))[j].1 in text
    ensures FirstAt(text, Table(Symbols(text))[i].1) < FirstAt(text, Table(Symbols(text))[j].1)
  {
    SymbolsInOrder(text, i, j);
  }

  /** Every id of the sample stands for the char it replaced. */
  lemma SampleDecodes(vis: seq<string>, sample: seq<seq<nat>>, sourceMap: seq<(nat, char)>)
    requires vis != [] && Fits(vis)
    requires sourceMap == Table(Symbols(Joined(vis))) && SampleOf(sample, vis, Symbols(Joined(vis)))
    ensures forall c, r :: 0 <= c < |sample| && 0 <= r < |vis| ==>
              Known(sourceMap, sample[c][r]) && Decode(sourceMap, sample[c][r]) == vis[r][c]
  {
    forall c, r | 0 <= c < |sample| && 0 <= r < |vis|
      ensures Known(sourceMap, sample[c][r]) && Decode(sourceMap, sample[c][r]) == vis[r][c]
    {
      LookupTable(Symbols(Joined(vis)), sample[c][r]);
    }
  }

  /** The rows of shown chars, each cut to the first row's length, as
      `xy_swap` keeps them. */
  function Truncated(vis: seq<string>): seq<string>
    requires vis != [] && Fits(vis)
  {
    seq(|vis|, r requires 0 <= r < |vis| => vis[r][..|vis[0]|])
  }

  /** Deconstructing then reconstructing gives back the shown chars of the
      sample, row by row, cut to the first row's length. */
  lemma RoundTrip(vis: seq<string>, sample: seq<seq<nat>>, sourceMap: seq<(nat, char)>)
    requires vis != [] && Fits(vis)
    requires sourceMap == Table(Symbols(Joined(vis))) && SampleOf(sample, vis, Symbols(Joined(vis)))
    requires sample != []
    ensures Fits(sample) && AllKnown(sample, sourceMap)
    ensures DecodedRows(Transposed(sample), sourceMap) == Truncated(vis)
  {
    SampleDecodes(vis, sample, sourceMap);
    var t := Transposed(sample);
    assert |t| == |vis|;
    forall r | 0 <= r < |vis|
      ensures Decoded(t[r], sourceMap) == vis[r][..|vis[0]|]
    {
    }
  }

  // ----------------------------------------------------------------------
  // Properties of reconstruct_string

  lemma {:induction false} RowTextEnd(row: string, useColor: bool)
    requires row != []
    ensures |RowText(row, useColor)| >= 3 && RowText(row, useColor)[|RowText(row, useColor)| - 1] == ' '
  {
  }

  lemma {:induction false} RowTextStart(row: string, useColor: bool)
    requires row != []
    ensures |RowText(row, useColor)| >= 3
    ensures useColor ==> RowText(row, useColor)[..3] == "\U{1B}[3"
    ensures !useColor ==> RowText(row, useColor)[1] == ','
  {
    if |row| > 1 {
      RowTextStart(row[..|row| - 1], useColor);
    }
  }

  lemma {:induction false} RenderedStart(rows: seq<string>, useColor: bool)
    requires rows != [] && rows[0] != []
    ensures |Rendered(rows, useColor)| >= 3
    ensures useColor ==> Rendered(rows, useColor)[..3] == "\U{1B}[3"
    ensures !useColor ==> Rendered(rows, useColor)[1] == ','
  {
    RowTextStart(rows[0], useColor);
    if |rows| > 1 {
      RenderedStart(rows[..|rows| - 1], useColor);
    } else {
      assert Rendered(rows, useColor) == RowText(rows[0], useColor);
    }
  }

  /** The output starts with the bold escape iff `bold`, and ends with the
      style reset iff `bold` or `use_color`. */
  lemma ReconstructedFrame(rows: seq<string>, useColor: bool, bold: bool)
    requires forall r :: 0 <= r < |rows| ==> rows[r] != []
    ensures var out := Reconstructed(rows, useColor, bold);
            (|out| >= 4 && out[..4] == Bold) <==> bold
    ensures var out := Reconstructed(rows, useColor, bold);
            (|out| >= 4 && out[|out| - 4..] == Reset) <==> bold || useColor
  {
    var body := Rendered(rows, useColor);
    var out := Reconstructed(rows, useColor, bold);
    if rows != [] {
      RenderedStart(rows, useColor);
      RowTextEnd(rows[|rows| - 1], useColor);
    }
    if !bold && |out| >= 4 {
      if rows == [] {
        assert out == Reset;
        assert out[2] != Bold[2];
      } else if useColor {
        assert out[2] == body[2] == '3';
      } else {
        assert out[1] == body[1] == ',';
      }
    }
    if !bold && !useColor {
      assert out == body;
      if rows != [] {
        assert out[|out| - 1] == ' ';
      }
    }
  }

  // ----------------------------------------------------------------------
  // construct_wip_string

  function CharLe(): (char, char) -> bool {
    (a: char, b: char) => a <= b
  }

  /** `count` chars: those of `chars` first, then spaces. */
  function Padded(chars: string, count: nat): string {
    seq(count, i requires 0 <= i < count => if i < |chars| then chars[i] else ' ')
  }

  /** One cell of `construct_wip_string`: its chars, sorted and padded to
      the largest candidate count, in brackets. */
  function WipCell(vals: seq<nat>, sourceMap: seq<(nat, char)>, count: nat): string
    requires forall k :: 0 <= k < |vals| ==> Known(sourceMap, vals[k])
  {
    "(" + Padded(Seqs.SortBy(Decoded(vals, sourceMap), CharLe()), count) + ")"
  }

  predicate RowKnown(row: seq<seq<nat>>, sourceMap: seq<(nat, char)>) {
    forall c, k :: 0 <= c < |row| && 0 <= k < |row[c]| ==> Known(sourceMap, row[c][k])
  }

  function WipRowText(row: seq<seq<nat>>, sourceMap: seq<(nat, char)>, count: nat): string
    requires RowKnown(row, sourceMap)
  {
    if row == [] then [] else WipRowText(row[..|row| - 1], sourceMap, count) + WipCell(row[|row| - 1], sourceMap, count)
  }

  /** Every row preceded by a newline, the first one too. */
  function WipText(rows: seq<seq<seq<nat>>>, sourceMap: seq<(nat, char)>, count: nat): string
    requires forall r :: 0 <= r < |rows| ==> RowKnown(rows[r], sourceMap)
  {
    if rows == [] then []
    else WipText(rows[..|rows| - 1], sourceMap, count) + "\n" + WipRowText(rows[|rows| - 1], sourceMap, count)
  }

  /** The largest number of candidates in a cell of `row`, or 0. */
  function RowMax(row: seq<seq<nat>>): nat {
    if row == [] then 0
    else var m := RowMax(row[..|row| - 1]); if |row[|row| - 1]| > m then |row[|row| - 1]| else m
  }

  function GridMax(rows: seq<seq<seq<nat>>>): nat {
    if rows == [] then 0
    else var m := GridMax(rows[..|rows| - 1]); if RowMax(rows[|rows| - 1]) > m then RowMax(rows[|rows| - 1]) else m
  }

  /** The inner loop of the maximum in `construct_wip_string`. */
  method MaxOfRow(row: seq<seq<nat>>, start: nat) returns (m: nat)
    ensures m == if RowMax(row) > start then RowMax(row) else start
  {
    m := start;
    for c := 0 to |row|
      invariant m == if RowMax(row[..c]) > start then RowMax(row[..c]) else start
    {
      assert row[..c + 1][..c] == row[..c];
      if |row[c]| > m {
        m := |row[c]|;
      }
    }
    assert row[..|row|] == row;
  }

  /** The maximum number of candidates over all cells. */
  method MaxOfGrid(rows: seq<seq<seq<nat>>>) returns (m: nat)
    ensures m == GridMax(rows)
  {
    m := 0;
    for r := 0 to |rows|
      invariant m == GridMax(rows[..r])
    {
      assert rows[..r + 1][..r] == rows[..r];
      m := MaxOfRow(rows[r], m);
    }
    assert rows[..|rows|] == rows;
  }

  /** The padding loop of one cell. */
  method RenderWipCell(vals: seq<nat>, sourceMap: seq<(nat, char)>, count: nat) returns (text: string)
    requires forall k :: 0 <= k < |vals| ==> Known(sourceMap, vals[k])
    ensures text == WipCell(vals, sourceMap, count)
  {
    var mapped := Seqs.SortBy(Decoded(vals, sourceMap), CharLe());
    text := "(";
    for i := 0 to count
      invariant text == "(" + Padded(mapped, i)
    {
      if i < |mapped| {
        text := text + [mapped[i]];
      } else {
        text := text + " ";
      }
      assert Padded(mapped, i + 1) == Padded(mapped, i) + [Padded(mapped, i + 1)[i]];
    }
    text := text + ")";
  }

  /** The cell loop of one row. */
  method RenderWipRow(row: seq<seq<nat>>, sourceMap: seq<(nat, char)>, count: nat) returns (text: string)
    requires RowKnown(row, sourceMap)
    ensures text == WipRowText(row, sourceMap, count)
  {
    text := "";
    for c := 0 to |row|
      invariant text == WipRowText(row[..c], sourceMap, count)
    {
      var cell := RenderWipCell(row[c], sourceMap, count);
      assert row[..c + 1][..c] == row[..c];
      text := text + cell;
    }
    assert row[..|row|] == row;
  }

  /** Every candidate id `xy_swap` reads from `input` is in the table. */
  predicate CandidatesKnown(input: seq<seq<seq<nat>>>, sourceMap: seq<(nat, char)>)
    requires input != []
  {
    forall c, r, k :: 0 <= c < |input| && 0 <= r < |input[0]| && r < |input[c]| && 0 <= k < |input[c][r]| ==>
      Known(sourceMap, input[c][r][k])
  }

  /** `construct_wip_string`: `xy_swap` turns the [x][y] grid of
      candidate-id lists into rows; every row starts on a new line, and
      every cell shows its chars sorted, padded with spaces to the largest
      candidate count, in brackets.  Every id read must be in the table. */
  method ConstructWipString(input: seq<seq<seq<nat>>>, sourceMap: seq<(nat, char)>) returns (output: string)
    requires input != [] && Fits(input) && CandidatesKnown(input, sourceMap)
    ensures output == WipText(Transposed(input), sourceMap, GridMax(Transposed(input)))
  {
    var swapped := Grids.XySwap(input);
    IsTransposed(input, swapped);
    TransposedKnown(input, sourceMap);
    output := "";
    var linesAdded := 0;
    var maxValsInPos := MaxOfGrid(swapped);
    for r := 0 to |swapped|
      invariant linesAdded == r
      invariant output == WipText(swapped[..r], sourceMap, maxValsInPos)
    {
      if linesAdded < r + 1 {
        output := output + "\n";
        linesAdded := linesAdded + 1;
      }
      var text := RenderWipRow(swapped[r], sourceMap, maxValsInPos);
      output := output + text;
      WipTextSnoc(swapped, r, sourceMap, maxValsInPos);
    }
    assert swapped[..|swapped|] == swapped;
  }

  /** Every row `xy_swap` makes holds only ids of the table. */
  lemma TransposedKnown(input: seq<seq<seq<nat>>>, sourceMap: seq<(nat, char)>)
    requires input != [] && Fits(input) && CandidatesKnown(input, sourceMap)
    ensures forall r :: 0 <= r < |Transposed(input)| ==> RowKnown(Transposed(input)[r], sourceMap)
  {
    var t := Transposed(input);
    forall r | 0 <= r < |t|
      ensures RowKnown(t[r], sourceMap)
    {
      forall c, k | 0 <= c < |t[r]| && 0 <= k < |t[r][c]|
        ensures Known(sourceMap, t[r][c][k])
      {
        assert t[r][c] == input[c][r];
      }
    }
  }

  lemma WipTextSnoc(rows: seq<seq<seq<nat>>>, r: nat, sourceMap: seq<(nat, char)>, count: nat)
    requires r < |rows| && forall i :: 0 <= i < |rows| ==> RowKnown(rows[i], sourceMap)
    ensures WipText(rows[..r + 1], sourceMap, count) ==
              WipText(rows[..r], sourceMap, count) + "\n" + WipRowText(rows[r], sourceMap, count)
  {
    assert rows[..r + 1][..r] == rows[..r];
  }

  // ----------------------------------------------------------------------
  // Properties of construct_wip_string

  /** The output starts with a newline whenever there is a row. */
  lemma {:induction false} WipStartsWithNewline(rows: seq<seq<seq<nat>>>, sourceMap: seq<(nat, char)>, count: nat)
    requires forall r :: 0 <= r < |rows| ==> RowKnown(rows[r], sourceMap)
    requires rows != []
    ensures WipText(rows, sourceMap, count)[0] == '\n'
  {
    if |rows| > 1 {
      WipStartsWithNewline(rows[..|rows| - 1], sourceMap, count);
    }
  }

  /** `GridMax` is the largest candidate count of any cell. */
  lemma {:induction false} GridMaxIsMax(rows: seq<seq<seq<nat>>>)
    ensures forall r, c :: 0 <= r < |rows| && 0 <= c < |rows[r]| ==> |rows[r][c]| <= GridMax(rows)
    ensures GridMax(rows) == 0 || exists r, c :: 0 <= r < |rows| && 0 <= c < |rows[r]| && |rows[r][c]| == GridMax(rows)
  {
    if rows != [] {
      var init := rows[..|rows| - 1];
      GridMaxIsMax(init);
      RowMaxIsMax(rows[|rows| - 1]);
      if GridMax(rows) != 0 && GridMax(rows) == GridMax(init) {
        var r, c :| 0 <= r < |init| && 0 <= c < |init[r]| && |init[r][c]| == GridMax(init);
        assert rows[r][c] == init[r][c];
      }
    }
  }

  lemma {:induction false} RowMaxIsMax(row: seq<seq<nat>>)
    ensures forall c :: 0 <= c < |row| ==> |row[c]| <= RowMax(row)
    ensures RowMax(row) == 0 || exists c :: 0 <= c < |row| && |row[c]| == RowMax(row)
  {
    if row != [] {
      var init := row[..|row| - 1];
      RowMaxIsMax(init);
      if RowMax(row) != 0 && RowMax(row) == RowMax(init) {
        var c :| 0 <= c < |init| && |init[c]| == RowMax(init);
        assert row[c] == init[c];
      }
    }
  }

  /** A cell is `count + 2` chars: a bracket, its chars in ascending
      order (a permutation of the chars of its ids), spaces up to
      `count`, and a bracket. */
  lemma WipCellShape(vals: seq<nat>, sourceMap: seq<(nat, char)>, count: nat)
    requires forall k :: 0 <= k < |vals| ==> Known(sourceMap, vals[k])
    requires |vals| <= count
    ensures var cell := WipCell(vals, sourceMap, count);
            |cell| == count + 2 && cell[0] == '(' && cell[count + 1] == ')' &&
            Seqs.SortedBy(cell[1..|vals| + 1], CharLe()) &&
            multiset(cell[1..|vals| + 1]) == multiset(Decoded(vals, sourceMap)) &&
            forall i :: |vals| + 1 <= i <= count ==> cell[i] == ' '
  {
    var sorted := Seqs.SortBy(Decoded(vals, sourceMap), CharLe());
    Seqs.SortSorted(Decoded(vals, sourceMap), CharLe());
    var cell := WipCell(vals, sourceMap, count);
    assert cell[1..|vals| + 1] == sorted;
  }
}
