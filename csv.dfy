/** The one-line CSV reader `parseCSVLine` (newtab.js:146-169): a comma
    separates fields outside quotes, a quote toggles quoting, and inside
    quotes a doubled quote stands for one literal quote. It never fails and
    always emits the field being read when the line ends. */
module Csv {
  import opened Text

  /** What the scanner holds between characters: the finished fields, the
      field being read, and whether it is inside quotes. */
  datatype Scan = Scan(fields: seq<string>, cur: string, inQuotes: bool)

  const Start := Scan([], "", false)

  /** The fields the scanner produces from the rest of a line `rest`, given
      the state it has reached. The finished fields are kept as a prefix and
      at least one more field is always emitted. */
  function ScanFrom(rest: string, st: Scan): (fields: seq<string>)
    ensures |fields| > |st.fields|
    ensures fields[..|st.fields|] == st.fields
    decreases |rest|
  {
    if rest == [] then st.fields + [st.cur]
    else if rest[0] == '"' then
      if st.inQuotes && |rest| > 1 && rest[1] == '"' then
        ScanFrom(rest[2..], st.(cur := st.cur + ['"']))
      else
        ScanFrom(rest[1..], st.(inQuotes := !st.inQuotes))
    else if rest[0] == ',' && !st.inQuotes then
      ScanFrom(rest[1..], Scan(st.fields + [st.cur], "", false))
    else
      ScanFrom(rest[1..], st.(cur := st.cur + [rest[0]]))
  }

  /** The fields of one line. */
  function Parse(line: string): (fields: seq<string>)
    ensures |fields| >= 1
  {
    ScanFrom(line, Start)
  }

  /** `parseCSVLine`: the character loop, proved to compute `Parse`. */
  method ParseLine(line: string) returns (out: seq<string>)
    ensures out == Parse(line)
  {
    out := [];
    var cur := "";
    var inQuotes := false;
    var i := 0;
    while i < |line|
      invariant 0 <= i <= |line|
      invariant ScanFrom(line[i..], Scan(out, cur, inQuotes)) == Parse(line)
    {
      var ch := line[i];
      assert line[i..][0] == ch;
      if ch == '"' {
        if inQuotes && i + 1 < |line| && line[i + 1] == '"' {
          assert line[i..][2..] == line[i + 2..];
          cur := cur + ['"'];
          i := i + 1;
        } else {
          assert line[i..][1..] == line[i + 1..];
          inQuotes := !inQuotes;
        }
      } else if ch == ',' && !inQuotes {
        assert line[i..][1..] == line[i + 1..];
        out := out + [cur];
        cur := "";
      } else {
        assert line[i..][1..] == line[i + 1..];
        cur := cur + [ch];
      }
      i := i + 1;
    }
    assert line[i..] == [];
    out := out + [cur];
  }

  /** Commas that act as separators: those read outside quotes, under the
      same quoting rules as the scanner. */
  function Separators(rest: string, inQuotes: bool): nat
    decreases |rest|
  {
    if rest == [] then 0
    else if rest[0] == '"' then
      if inQuotes && |rest| > 1 && rest[1] == '"' then Separators(rest[2..], true)
      else Separators(rest[1..], !inQuotes)
    else if rest[0] == ',' && !inQuotes then 1 + Separators(rest[1..], false)
    else Separators(rest[1..], inQuotes)
  }

  lemma {:induction false} ScanFromCount(rest: string, st: Scan)
    ensures |ScanFrom(rest, st)| == |st.fields| + 1 + Separators(rest, st.inQuotes)
    decreases |rest|
  {
    if rest == [] {
    } else if rest[0] == '"' {
      if st.inQuotes && |rest| > 1 && rest[1] == '"' {
        ScanFromCount(rest[2..], st.(cur := st.cur + ['"']));
      } else {
        ScanFromCount(rest[1..], st.(inQuotes := !st.inQuotes));
      }
    } else if rest[0] == ',' && !st.inQuotes {
      ScanFromCount(rest[1..], Scan(st.fields + [st.cur], "", false));
    } else {
      ScanFromCount(rest[1..], st.(cur := st.cur + [rest[0]]));
    }
  }

  /** A line has one field more than it has commas outside quotes. */
  lemma FieldCount(line: string)
    ensures |Parse(line)| == 1 + Separators(line, false)
  {
    ScanFromCount(line, Start);
  }

  /** Outside quotes, a quote-free stretch is cut at its commas. */
  lemma {:induction false} ScanQuoteFree(s: string, st: Scan)
    requires '"' !in s && !st.inQuotes
    ensures ScanFrom(s, st) == st.fields + [st.cur + Split(s, ',')[0]] + Split(s, ',')[1..]
    decreases |s|
  {
    var parts := Split(s, ',');
    if s == [] {
      assert st.cur + "" == st.cur;
    } else {
      var rest := Split(s[1..], ',');
      assert '"' !in s[1..] by { assert forall c :: c in s[1..] ==> c in s; }
      if s[0] == ',' {
        ScanQuoteFree(s[1..], Scan(st.fields + [st.cur], "", false));
        assert parts == [""] + rest;
        assert "" + rest[0] == rest[0];
        assert st.cur + "" == st.cur;
        assert parts[1..] == rest;
        assert [rest[0]] + rest[1..] == rest;
      } else {
        ScanQuoteFree(s[1..], st.(cur := st.cur + [s[0]]));
        assert parts == [[s[0]] + rest[0]] + rest[1..];
        assert st.cur + [s[0]] + rest[0] == st.cur + ([s[0]] + rest[0]);
      }
    }
  }

  /** A line with no quote is split at every comma, exactly as `split(',')`. */
  lemma ParseQuoteFree(line: string)
    requires '"' !in line
    ensures Parse(line) == Split(line, ',')
  {
    ScanQuoteFree(line, Start);
    var parts := Split(line, ',');
    assert "" + parts[0] == parts[0];
    assert [parts[0]] + parts[1..] == parts;
  }

  /** For a line with no quote, joining the fields with commas gives the line back. */
  lemma ParseQuoteFreeRoundTrip(line: string)
    requires '"' !in line
    ensures Join(Parse(line), ',') == line
  {
    ParseQuoteFree(line);
    JoinSplit(line, ',');
  }

  /** Inside quotes, a quote-free stretch, commas included, goes into the
      current field whole. */
  lemma {:induction false} ScanQuoted(s: string, rest: string, st: Scan)
    requires '"' !in s && st.inQuotes
    ensures ScanFrom(s + rest, st) == ScanFrom(rest, st.(cur := st.cur + s))
    decreases |s|
  {
    if s == [] {
      assert s + rest == rest;
      assert st.cur + s == st.cur;
    } else {
      assert (s + rest)[0] == s[0];
      assert (s + rest)[1..] == s[1..] + rest;
      assert '"' !in s[1..] by { assert forall c :: c in s[1..] ==> c in s; }
      ScanQuoted(s[1..], rest, st.(cur := st.cur + [s[0]]));
      assert st.cur + [s[0]] + s[1..] == st.cur + s;
    }
  }

  /** Outside quotes, a stretch with neither quote nor comma goes into the
      current field whole. */
  lemma {:induction false} ScanPlain(s: string, rest: string, st: Scan)
    requires '"' !in s && ',' !in s
    ensures ScanFrom(s + rest, st) == ScanFrom(rest, st.(cur := st.cur + s))
    decreases |s|
  {
    if s == [] {
      assert s + rest == rest;
      assert st.cur + s == st.cur;
    } else {
      assert (s + rest)[0] == s[0];
      assert (s + rest)[1..] == s[1..] + rest;
      assert '"' !in s[1..] && ',' !in s[1..] by { assert forall c :: c in s[1..] ==> c in s; }
      ScanPlain(s[1..], rest, st.(cur := st.cur + [s[0]]));
      assert st.cur + [s[0]] + s[1..] == st.cur + s;
    }
  }

  /** The quoting that `parseCSVLine` undoes: every quote doubled. */
  function Escape(s: string): (e: string)
    ensures |e| >= |s|
  {
    if s == [] then ""
    else (if s[0] == '"' then "\"\"" else [s[0]]) + Escape(s[1..])
  }

  /** A field written between quotes, with its quotes doubled. */
  function Quote(s: string): string
  {
    "\"" + Escape(s) + "\""
  }

  function QuoteAll(fields: seq<string>): (quoted: seq<string>)
    ensures |quoted| == |fields|
  {
    if fields == [] then [] else [Quote(fields[0])] + QuoteAll(fields[1..])
  }

  /** A row written with every field quoted (section 2 of RFC 4180, rules 6 and 7). */
  function Encode(fields: seq<string>): string
  {
    Join(QuoteAll(fields), ',')
  }

  /** Reading an escaped field inside quotes, up to its closing quote,
      appends the original field to the current one and leaves quotes. */
  lemma {:induction false} ScanEscaped(s: string, rest: string, st: Scan)
    requires st.inQuotes
    requires rest == [] || rest[0] != '"'
    ensures ScanFrom(Escape(s) + ['"'] + rest, st) == ScanFrom(rest, Scan(st.fields, st.cur + s, false))
    decreases |s|
  {
    var line := Escape(s) + ['"'] + rest;
    if s == [] {
      assert line == ['"'] + rest;
      assert line[1..] == rest;
      assert st.cur + s == st.cur;
    } else {
      var tail := Escape(s[1..]) + ['"'] + rest;
      ScanEscaped(s[1..], rest, st.(cur := st.cur + [s[0]]));
      if s[0] == '"' {
        assert line == "\"\"" + tail;
        assert line[2..] == tail;
      } else {
        assert line == [s[0]] + tail;
        assert line[1..] == tail;
      }
      assert st.cur + [s[0]] + s[1..] == st.cur + s;
    }
  }

  /** A written row is its first quoted field, then a comma and the rest
      of the row if there is more. */
  lemma EncodeCons(fields: seq<string>)
    requires |fields| >= 1
    ensures Encode(fields) == Quote(fields[0]) + if |fields| == 1 then "" else [','] + Encode(fields[1..])
  {
    var q := QuoteAll(fields);
    assert q[0] == Quote(fields[0]) && q[1..] == QuoteAll(fields[1..]);
    if |fields| == 1 {
      assert Encode(fields) == Quote(fields[0]);
    } else {
      assert Encode(fields) == Quote(fields[0]) + [','] + Encode(fields[1..]);
    }
  }

  /** Reading a quoted field, up to a comma or the end, gives the field. */
  lemma ScanQuotedField(f: string, rest: string, done: seq<string>)
    requires rest == [] || rest[0] == ','
    ensures ScanFrom(Quote(f) + rest, Scan(done, "", false)) == ScanFrom(rest, Scan(done, f, false))
  {
    var line := Quote(f) + rest;
    assert line == ['"'] + (Escape(f) + ['"'] + rest);
    ScanOpenQuote(Escape(f) + ['"'] + rest, Scan(done, "", false));
    ScanEscaped(f, rest, Scan(done, "", true));
    assert "" + f == f;
  }

  lemma {:induction false} ScanEncoded(fields: seq<string>, done: seq<string>)
    requires |fields| >= 1
    ensures ScanFrom(Encode(fields), Scan(done, "", false)) == done + fields
    decreases |fields|
  {
    var f := fields[0];
    EncodeCons(fields);
    if |fields| == 1 {
      ScanQuotedField(f, "", done);
      assert Quote(f) + "" == Quote(f);
      assert fields == [f];
    } else {
      var tail := Encode(fields[1..]);
      ScanQuotedField(f, [','] + tail, done);
      ScanComma(tail, Scan(done, f, false));
      ScanEncoded(fields[1..], done + [f]);
      assert done + [f] + fields[1..] == done + fields;
    }
  }

  /** Reading a row written with every field quoted gives the fields back,
      whatever commas and quotes they hold. */
  lemma ParseEncode(fields: seq<string>)
    requires |fields| >= 1
    ensures Parse(Encode(fields)) == fields
  {
    ScanEncoded(fields, []);
  }

  /** Outside quotes, a comma closes the current field. */
  lemma ScanComma(rest: string, st: Scan)
    requires !st.inQuotes
    ensures ScanFrom([','] + rest, st) == ScanFrom(rest, Scan(st.fields + [st.cur], "", false))
  {
    assert ([','] + rest)[1..] == rest;
  }

  /** Outside quotes, a quote opens quoting. */
  lemma ScanOpenQuote(rest: string, st: Scan)
    requires !st.inQuotes
    ensures ScanFrom(['"'] + rest, st) == ScanFrom(rest, st.(inQuotes := true))
  {
    assert (['"'] + rest)[1..] == rest;
  }

  /** A quoted middle field is read unescaped, commas and doubled quotes
      included. */
  lemma QuotedMiddleField(a: string, f: string, d: string)
    requires '"' !in a && ',' !in a
    requires '"' !in d && ',' !in d
    ensures Parse(a + "," + Quote(f) + "," + d) == [a, f, d]
  {
    var r2 := [','] + d;
    var r1 := Escape(f) + ['"'] + r2;
    assert a + "," + Quote(f) + "," + d == a + ([','] + (['"'] + r1));
    calc {
      ScanFrom(a + ([','] + (['"'] + r1)), Start);
      { ScanPlain(a, [','] + (['"'] + r1), Start); assert "" + a == a; }
      ScanFrom([','] + (['"'] + r1), Scan([], a, false));
      { ScanComma(['"'] + r1, Scan([], a, false)); assert [] + [a] == [a]; }
      ScanFrom(['"'] + r1, Scan([a], "", false));
      { ScanOpenQuote(r1, Scan([a], "", false)); }
      ScanFrom(r1, Scan([a], "", true));
      { ScanEscaped(f, r2, Scan([a], "", true)); assert "" + f == f; }
      ScanFrom(r2, Scan([a], f, false));
      { ScanComma(d, Scan([a], f, false)); assert [a] + [f] == [a, f]; }
      ScanFrom(d, Scan([a, f], "", false));
      { ScanPlain(d, "", Scan([a, f], "", false)); assert d + "" == d; assert "" + d == d; }
      ScanFrom("", Scan([a, f], d, false));
    }
  }

  /** The quoting examples: a quoted comma and a doubled quote. */
  lemma QuotingExamples()
    ensures Parse("a,\"b,c\",d") == ["a", "b,c", "d"]
    ensures Parse("a,\"b\"\"c\",d") == ["a", "b\"c", "d"]
  {
    QuotedMiddleField("a", "b,c", "d");
    assert Quote("b,c") == "\"b,c\"";
    assert "a" + "," + Quote("b,c") + "," + "d" == "a,\"b,c\",d";
    QuotedMiddleField("a", "b\"c", "d");
    assert Quote("b\"c") == "\"b\"\"c\"";
    assert "a" + "," + Quote("b\"c") + "," + "d" == "a,\"b\"\"c\",d";
  }
}
