/** The parsing half of `loadPrompts` (newtab.js:89-143): the sheet's CSV
    text is cut into lines, blank lines are dropped, the first remaining
    line is taken as a header and ignored, and every later row whose first
    two columns are non-blank becomes a prompt record. The network fetch is
    not modelled: its outcome is an input. */
module Feed {
  import opened Common
  import opened Text
  import Csv

  /** One prompt record `{theme, prompt}`. */
  datatype Prompt = Prompt(theme: string, prompt: string)

  /** The placeholder that replaces the deck when loading fails. */
  const ErrorPrompt := Prompt("Error", "Failed to load prompts. " + "Check sheet id/gid or network.")

  /** What the fetch hands over: the body of an ok response, or a failure
      (a network error or a status that is not ok). */
  datatype Response = Fetched(text: string) | FetchFailed

  /** Why a load fails: the fetch failed, the text had no non-blank line,
      or no row gave a record. */
  datatype LoadError = FeedUnavailable | EmptyFeed | NoPrompts

  /** What every stored record satisfies: both fields non-empty and already trimmed. */
  predicate WellFormed(p: Prompt)
  {
    p.theme != [] && IsTrimmed(p.theme) && p.prompt != [] && IsTrimmed(p.prompt)
  }

  function DropCarriageReturn(piece: string): string
  {
    if piece != [] && piece[|piece| - 1] == '\r' then piece[..|piece| - 1] else piece
  }

  /** Drops one trailing `\r` from every piece but the last: the pieces that
      were followed by a `\n`. */
  function DropCarriageReturns(pieces: seq<string>): (lines: seq<string>)
    ensures |lines| == |pieces|
    ensures forall i :: 0 <= i < |pieces| ==>
      lines[i] == if i < |pieces| - 1 then DropCarriageReturn(pieces[i]) else pieces[i]
  {
    if |pieces| <= 1 then pieces
    else [DropCarriageReturn(pieces[0])] + DropCarriageReturns(pieces[1..])
  }

  /** `text.split(/\r?\n/)`: lines end at `\n` or `\r\n`; a lone `\r`
      stays inside its line. */
  function SplitLines(text: string): (lines: seq<string>)
    ensures |lines| >= 1
    ensures forall i :: 0 <= i < |lines| ==> '\n' !in lines[i]
  {
    var pieces := Split(text, '\n');
    var lines := DropCarriageReturns(pieces);
    assert forall i :: 0 <= i < |lines| ==> '\n' !in lines[i] by {
      forall i | 0 <= i < |lines| ensures '\n' !in lines[i] {
        var p := pieces[i];
        if p != [] && p[|p| - 1] == '\r' {
          assert forall c :: c in p[..|p| - 1] ==> c in p;
        }
      }
    }
    lines
  }

  /** `lines.filter(l => l.trim() !== '')`: the non-blank lines, in order. */
  function NonBlankLines(lines: seq<string>): (kept: seq<string>)
    ensures |kept| <= |lines|
    ensures forall i :: 0 <= i < |kept| ==> !IsBlank(kept[i])
    ensures forall l :: l in kept ==> l in lines
    ensures forall l :: l in lines && !IsBlank(l) ==> l in kept
  {
    if lines == [] then []
    else
      TrimEmptyIffBlank(lines[0]);
      (if Trim(lines[0]) != [] then [lines[0]] else []) + NonBlankLines(lines[1..])
  }

  /** The record one row yields, if any (newtab.js:110-120): a row that
      is blank, has fewer than two columns, or has a blank theme or prompt
      column yields nothing; otherwise the record holds the two trimmed
      columns. */
  function RecordOf(row: string): (r: Option<Prompt>)
    ensures r.Some? <==>
      && !IsBlank(row)
      && |Csv.Parse(row)| >= 2
      && !IsBlank(Csv.Parse(row)[0])
      && !IsBlank(Csv.Parse(row)[1])
    ensures r.Some? ==> WellFormed(r.value)
    ensures r.Some? ==> r.value == Prompt(Trim(Csv.Parse(row)[0]), Trim(Csv.Parse(row)[1]))
  {
    TrimEmptyIffBlank(row);
    if Trim(row) == [] then None
    else
      var cols := Csv.Parse(row);
      if |cols| >= 2 then
        TrimEmptyIffBlank(cols[0]);
        TrimEmptyIffBlank(cols[1]);
        var theme := Trim(cols[0]);
        var prompt := Trim(cols[1]);
        if theme != [] && prompt != [] then Some(Prompt(theme, prompt)) else None
      else None
  }

  /** The records the rows yield, in row order. */
  function Records(rows: seq<string>): (ps: seq<Prompt>)
    ensures |ps| <= |rows|
    ensures forall i :: 0 <= i < |ps| ==> WellFormed(ps[i])
  {
    if rows == [] then []
    else
      Records(rows[..|rows| - 1]) +
      match RecordOf(rows[|rows| - 1])
      case Some(p) => [p]
      case None => []
  }

  /** The distinct themes of a deck. */
  function ThemesOf(ps: seq<Prompt>): set<string>
  {
    set p | p in ps :: p.theme
  }

  /** What `loadPrompts` decides: the records of the rows after the header,
      or the reason the load fails. */
  function LoadOutcome(response: Response): (o: Result<seq<Prompt>, LoadError>)
    ensures response.FetchFailed? ==> o == Failure(FeedUnavailable)
    ensures o == Failure(EmptyFeed) <==>
      response.Fetched? && NonBlankLines(SplitLines(response.text)) == []
    ensures o.Success? ==> |o.value| >= 1 && forall i :: 0 <= i < |o.value| ==> WellFormed(o.value[i])
  {
    match response
    case FetchFailed => Failure(FeedUnavailable)
    case Fetched(text) =>
      var lines := NonBlankLines(SplitLines(text));
      if |lines| == 0 then Failure(EmptyFeed)
      else
        var ps := Records(lines[1..]);
        if |ps| == 0 then Failure(NoPrompts) else Success(ps)
  }

  /** The deck after loading: the records, or the one placeholder record on
      any failure. It is never empty and every record in it is well formed. */
  function LoadedDeck(response: Response): (ps: seq<Prompt>)
    ensures |ps| >= 1
    ensures forall i :: 0 <= i < |ps| ==> WellFormed(ps[i])
    ensures LoadOutcome(response).Failure? ==> ps == [ErrorPrompt]
  {
    assert WellFormed(ErrorPrompt) by {
      assert ErrorPrompt.theme[0] == 'E' && ErrorPrompt.theme[|ErrorPrompt.theme| - 1] == 'r';
      assert ErrorPrompt.prompt[0] == 'F' && ErrorPrompt.prompt[|ErrorPrompt.prompt| - 1] == '.';
    }
    match LoadOutcome(response)
    case Success(ps) => ps
    case Failure(_) => [ErrorPrompt]
  }

  /** The themes offered by the theme selector after loading (besides "all"). */
  function ThemeOptions(response: Response): (themes: set<string>)
    ensures LoadOutcome(response).Failure? ==> themes == {}
    ensures LoadOutcome(response).Success? ==>
      forall p :: p in LoadedDeck(response) ==> p.theme in themes
    ensures forall th :: th in themes ==> exists p :: p in LoadedDeck(response) && p.theme == th
  {
    match LoadOutcome(response)
    case Success(ps) => ThemesOf(ps)
    case Failure(_) => {}
  }

  // ---------------------------------------------------------------------
  // Properties of the extraction

  /** Records keep row order: the rows of two stretches of text yield the
      records of the first stretch followed by those of the second. */
  lemma {:induction false} RecordsAppend(a: seq<string>, b: seq<string>)
    ensures Records(a + b) == Records(a) + Records(b)
    decreases |b|
  {
    if b == [] {
      assert a + b == a;
    } else {
      var last := b[|b| - 1];
      var tail := match RecordOf(last) case Some(p) => [p] case None => [];
      assert (a + b)[..|a + b| - 1] == a + b[..|b| - 1];
      assert (a + b)[|a + b| - 1] == last;
      assert Records(a + b) == Records(a + b[..|b| - 1]) + tail;
      assert Records(b) == Records(b[..|b| - 1]) + tail;
      RecordsAppend(a, b[..|b| - 1]);
    }
  }

  /** One row yields its record, if any. */
  lemma RecordsOfRow(row: string)
    ensures Records([row]) == match RecordOf(row) case Some(p) => [p] case None => []
  {
    assert [row][..0] == [];
  }

  /** The rows up to `i`, inclusive, yield the records of the rows before
      `i` followed by the record of row `i`, if any. */
  lemma RecordsStep(lines: seq<string>, i: nat)
    requires 1 <= i < |lines|
    ensures Records(lines[1..i + 1]) == Records(lines[1..i]) + match RecordOf(lines[i]) case Some(p) => [p] case None => []
  {
    assert lines[1..i + 1] == lines[1..i] + [lines[i]];
    RecordsAppend(lines[1..i], [lines[i]]);
    RecordsOfRow(lines[i]);
  }

  /** Blank rows yield nothing, so dropping them changes no record. */
  lemma {:induction false} RecordsNonBlank(rows: seq<string>)
    ensures Records(NonBlankLines(rows)) == Records(rows)
    decreases |rows|
  {
    if rows != [] {
      var first := rows[0];
      var kept := if Trim(first) != [] then [first] else [];
      assert NonBlankLines(rows) == kept + NonBlankLines(rows[1..]);
      assert rows == [first] + rows[1..];
      RecordsAppend([first], rows[1..]);
      RecordsAppend(kept, NonBlankLines(rows[1..]));
      RecordsNonBlank(rows[1..]);
      RecordsOfRow(first);
      TrimEmptyIffBlank(first);
      assert Records(kept) == Records([first]);
    }
  }

  /** The filter keeps line order: the non-blank lines of two stretches are
      those of the first, then those of the second. */
  lemma {:induction false} NonBlankLinesAppend(a: seq<string>, b: seq<string>)
    ensures NonBlankLines(a + b) == NonBlankLines(a) + NonBlankLines(b)
  {
    if a == [] {
      assert a + b == b;
      assert NonBlankLines(a) + NonBlankLines(b) == NonBlankLines(b);
    } else {
      var kept := if Trim(a[0]) != [] then [a[0]] else [];
      assert (a + b)[0] == a[0] && (a + b)[1..] == a[1..] + b;
      assert NonBlankLines(a + b) == kept + NonBlankLines(a[1..] + b);
      assert NonBlankLines(a) == kept + NonBlankLines(a[1..]);
      NonBlankLinesAppend(a[1..], b);
      ConcatAssociative(kept, NonBlankLines(a[1..]), NonBlankLines(b));
    }
  }

  /** Concatenation regroups freely. */
  lemma ConcatAssociative<T>(x: seq<T>, y: seq<T>, z: seq<T>)
    ensures x + (y + z) == (x + y) + z
  {
  }

  /** Adding a record adds its theme to the theme set. */
  lemma ThemesOfPush(ps: seq<Prompt>, p: Prompt)
    ensures ThemesOf(ps + [p]) == ThemesOf(ps) + {p.theme}
  {
    assert forall q :: q in ps + [p] <==> q in ps || q == p;
  }

  /** The text of a document whose lines are `header` then `rows`, joined by `\n`. */
  function Document(header: string, rows: seq<string>): string
  {
    Join([header] + rows, '\n')
  }

  /** Lines that hold no `\n`, all but the last not ending in `\r`. */
  predicate SplittableLines(lines: seq<string>)
  {
    && (forall i :: 0 <= i < |lines| ==> '\n' !in lines[i])
    && (forall i :: 0 <= i < |lines| - 1 ==> lines[i] == [] || lines[i][|lines[i]| - 1] != '\r')
  }

  /** Joining such lines with `\n` and splitting again gives them back. */
  lemma SplitLinesJoin(lines: seq<string>)
    requires |lines| >= 1
    requires SplittableLines(lines)
    ensures SplitLines(Join(lines, '\n')) == lines
  {
    SplitJoin(lines, '\n');
  }

  /** The line after the first `\n` starts the lines of the rest. */
  lemma SplitLinesHeader(h: string, body: string)
    requires '\n' !in h
    ensures SplitLines(h + "\n" + body) == [DropCarriageReturn(h)] + SplitLines(body)
  {
    var tail := Split(body, '\n');
    assert h + "\n" + body == h + (['\n'] + body);
    SplitPrefix(h, ['\n'] + body, '\n');
    assert (['\n'] + body)[1..] == body;
    assert Split(['\n'] + body, '\n') == [""] + tail;
    assert h + "" == h;
    assert Split(h + "\n" + body, '\n') == [h] + tail;
  }

  /** Dropping the `\r` that ends a non-blank line leaves it non-blank. */
  lemma DropCarriageReturnNonBlank(h: string)
    requires !IsBlank(h)
    ensures !IsBlank(DropCarriageReturn(h))
  {
    var i :| 0 <= i < |h| && !IsWhitespace(h[i]);
    if h != [] && h[|h| - 1] == '\r' {
      assert i < |h| - 1;
      assert DropCarriageReturn(h)[i] == h[i];
    }
  }

  /** The header line is never read: any two non-blank header lines give
      the same outcome. */
  lemma HeaderIgnored(h1: string, h2: string, body: string)
    requires '\n' !in h1 && !IsBlank(h1)
    requires '\n' !in h2 && !IsBlank(h2)
    ensures LoadOutcome(Fetched(h1 + "\n" + body)) == LoadOutcome(Fetched(h2 + "\n" + body))
  {
    HeaderLine(h1, body);
    HeaderLine(h2, body);
  }

  /** A document of one non-blank header line and some body yields the
      records of the body's lines. */
  lemma HeaderLine(h: string, body: string)
    requires '\n' !in h && !IsBlank(h)
    ensures var ps := Records(SplitLines(body));
      LoadOutcome(Fetched(h + "\n" + body)) == if ps == [] then Failure(NoPrompts) else Success(ps)
  {
    SplitLinesHeader(h, body);
    DropCarriageReturnNonBlank(h);
    var h' := DropCarriageReturn(h);
    TrimEmptyIffBlank(h');
    var rest := SplitLines(body);
    assert ([h'] + rest)[1..] == rest;
    assert NonBlankLines([h'] + rest) == [h'] + NonBlankLines(rest);
    RecordsNonBlank(rest);
  }

  /** The first non-blank line never yields a record: a text with a single
      non-blank line, among any number of blank ones, fails with
      `NoPrompts`, whatever that line holds. */
  lemma HeaderOnly(text: string)
    requires |NonBlankLines(SplitLines(text))| == 1
    ensures LoadOutcome(Fetched(text)) == Failure(NoPrompts)
  {
    assert NonBlankLines(SplitLines(text))[1..] == [];
  }

  /** Loading a document: a non-blank header line, then rows that split back
      into lines, yields exactly the records of the rows. */
  lemma LoadDocument(header: string, rows: seq<string>)
    requires !IsBlank(header) && SplittableLines([header] + rows)
    ensures var ps := Records(rows);
      LoadOutcome(Fetched(Document(header, rows))) == if ps == [] then Failure(NoPrompts) else Success(ps)
  {
    var lines := [header] + rows;
    assert lines[0] == header;
    SplitLinesJoin(lines);
    TrimEmptyIffBlank(header);
    assert lines[1..] == rows;
    assert NonBlankLines(lines) == [header] + NonBlankLines(rows);
    RecordsNonBlank(rows);
  }

  /** A row of two plain columns yields its record. */
  lemma RecordOfPlainRow(p: Prompt)
    requires WellFormed(p)
    requires '"' !in p.theme && ',' !in p.theme
    requires '"' !in p.prompt && ',' !in p.prompt
    ensures RecordOf(p.theme + "," + p.prompt) == Some(p)
  {
    var row := p.theme + "," + p.prompt;
    assert '"' !in row by {
      assert forall c :: c in row ==> c in p.theme || c == ',' || c in p.prompt;
    }
    Csv.ParseQuoteFree(row);
    assert row == Join([p.theme, p.prompt], ',');
    SplitJoin([p.theme, p.prompt], ',');
    assert row[0] == p.theme[0];
    TrimTrimmed(p.theme);
    TrimTrimmed(p.prompt);
  }

  /** A row with both columns quoted yields its record, whatever commas and
      quotes the columns hold. */
  lemma RecordOfQuotedRow(p: Prompt)
    requires WellFormed(p)
    ensures RecordOf(Csv.Encode([p.theme, p.prompt])) == Some(p)
  {
    var row := Csv.Encode([p.theme, p.prompt]);
    Csv.ParseEncode([p.theme, p.prompt]);
    assert Csv.QuoteAll([p.theme, p.prompt])[0] == Csv.Quote(p.theme);
    assert row[0] == '"';
    TrimTrimmed(p.theme);
    TrimTrimmed(p.prompt);
  }

  /** A document whose every line, `lines[i]`, is followed by `\n`. */
  function Terminated(lines: seq<string>): string
  {
    if lines == [] then "" else lines[0] + "\n" + Terminated(lines[1..])
  }

  /** A line that holds no `\n` and does not end in `\r`. */
  predicate PlainLine(l: string)
  {
    '\n' !in l && (l == [] || l[|l| - 1] != '\r')
  }

  /** Splitting a document of terminated lines gives the lines back and an
      empty last line after the final `\n`. */
  lemma {:induction false} SplitLinesTerminated(lines: seq<string>)
    requires forall i :: 0 <= i < |lines| ==> PlainLine(lines[i])
    ensures SplitLines(Terminated(lines)) == lines + [""]
  {
    if lines == [] {
      assert Split("", '\n') == [""];
    } else {
      var l := lines[0];
      SplitLinesHeader(l, Terminated(lines[1..]));
      SplitLinesTerminated(lines[1..]);
      assert lines == [l] + lines[1..];
    }
  }

  /** Loading a document of terminated lines, a non-blank header then the
      rows, yields exactly the records of the rows. */
  lemma LoadTerminated(header: string, rows: seq<string>)
    requires !IsBlank(header) && PlainLine(header)
    requires forall i :: 0 <= i < |rows| ==> PlainLine(rows[i])
    ensures var ps := Records(rows);
      LoadOutcome(Fetched(Terminated([header] + rows))) == if ps == [] then Failure(NoPrompts) else Success(ps)
  {
    assert ([header] + rows)[0] == header && ([header] + rows)[1..] == rows;
    assert Terminated([header] + rows) == header + "\n" + Terminated(rows);
    HeaderLine(header, Terminated(rows));
    SplitLinesTerminated(rows);
    RecordsAppend(rows, [""]);
    RecordsOfRow("");
    assert Records(rows + [""]) == Records(rows);
  }
}
