/**
 * The minimal CSV codec used for `orders.csv` and `order_items.csv`
 * (a subset of RFC 4180, section 2, rules 5-7): a field is wrapped in double
 * quotes, with its quotes doubled, only when it contains a comma or a quote.
 *
 * `ParseCsvLine` is the single-pass tokenizer (one copy each in the admin
 * dashboard, the analytics panel and the settings dialog; they are
 * identical), `ParseLine` the function it is proved against, `Unescape` the
 * extra quote stripping the readers apply to the customer/item field.
 */
module Csv {
  import opened Wrappers
  import opened JavaText

  const Quote: char := '"'
  const Comma: char := ','

  /** No comma and no quote: such a field is written as it is. */
  predicate Plain(s: string) { Quote !in s && Comma !in s }

  /** `s.replace("\"", "\"\"")`. */
  function DoubleQuotes(s: string): (r: string)
    ensures |r| >= |s|
    ensures Quote !in s ==> r == s
  {
    if s == [] then []
    else (if s[0] == Quote then [Quote, Quote] else [s[0]]) + DoubleQuotes(s[1..])
  }

  /** `s.replace("\"\"", "\"")`: pairs of quotes, matched left to right, become one. */
  function CollapseQuotes(s: string): (r: string)
    ensures |r| <= |s|
  {
    if |s| >= 2 && s[0] == Quote && s[1] == Quote then [Quote] + CollapseQuotes(s[2..])
    else if s == [] then []
    else [s[0]] + CollapseQuotes(s[1..])
  }

  lemma {:induction false} DoubleQuotesKeepsChars(s: string, c: char)
    ensures c in DoubleQuotes(s) <==> c in s
  {
    if s != [] {
      DoubleQuotesKeepsChars(s[1..], c);
      assert s == [s[0]] + s[1..];
    }
  }

  lemma {:induction false} CollapseUndoesDouble(s: string)
    ensures CollapseQuotes(DoubleQuotes(s)) == s
  {
    if s != [] {
      CollapseUndoesDouble(s[1..]);
      var d := DoubleQuotes(s);
      if s[0] == Quote {
        assert d == [Quote, Quote] + DoubleQuotes(s[1..]);
        assert d[2..] == DoubleQuotes(s[1..]);
      } else {
        assert d == [s[0]] + DoubleQuotes(s[1..]);
        assert d[1..] == DoubleQuotes(s[1..]);
      }
      assert s == [s[0]] + s[1..];
    }
  }

  /** `CashierPanel.escape`: quote (and double quotes) only when the value holds a comma or a quote. */
  function Escape(s: string): (r: string)
    ensures Plain(s) ==> r == s
    ensures !Plain(s) ==> r == [Quote] + DoubleQuotes(s) + [Quote]
  {
    DoubleQuotesKeepsChars(s, Quote);
    DoubleQuotesKeepsChars(s, Comma);
    var v := DoubleQuotes(s);
    if Comma in v || Quote in v then [Quote] + v + [Quote] else v
  }

  /**
   * The tokenizer as a function of the unread input `s`, the `inQuotes` flag,
   * the field being built `cur` and the fields already emitted `done`.
   */
  function ParseFrom(s: string, inQuotes: bool, cur: string, done: seq<string>): (r: seq<string>)
    ensures |r| > |done| && r[..|done|] == done
    decreases |s|
  {
    if s == [] then done + [cur]
    else if s[0] == Quote then
      if inQuotes && |s| >= 2 && s[1] == Quote then ParseFrom(s[2..], inQuotes, cur + [Quote], done)
      else ParseFrom(s[1..], !inQuotes, cur, done)
    else if s[0] == Comma && !inQuotes then ParseFrom(s[1..], false, [], done + [cur])
    else ParseFrom(s[1..], inQuotes, cur + [s[0]], done)
  }

  /** The fields `parseCsvLine` returns for `line`. */
  function ParseLine(line: string): (r: seq<string>)
    ensures |r| >= 1
  {
    ParseFrom(line, false, [], [])
  }

  /** `parseCsvLine`: the index loop with its `i++` skip over a doubled quote. */
  method ParseCsvLine(line: string) returns (fields: seq<string>)
    ensures fields == ParseLine(line)
  {
    var out: seq<string> := [];
    var inQuotes := false;
    var sb: string := [];
    var i := 0;
    while i < |line|
      invariant 0 <= i <= |line|
      invariant ParseFrom(line[i..], inQuotes, sb, out) == ParseLine(line)
    {
      var c := line[i];
      assert line[i..][0] == c;
      if c == Quote {
        if inQuotes && i + 1 < |line| && line[i + 1] == Quote {
          assert line[i..][2..] == line[i + 2..];
          sb := sb + [Quote];
          i := i + 1;
        } else {
          assert line[i..][1..] == line[i + 1..];
          inQuotes := !inQuotes;
        }
      } else if c == Comma && !inQuotes {
        assert line[i..][1..] == line[i + 1..];
        out := out + [sb];
        sb := [];
      } else {
        assert line[i..][1..] == line[i + 1..];
        sb := sb + [c];
      }
      i := i + 1;
    }
    out := out + [sb];
    fields := out;
  }

  /** An empty line is one empty field. */
  lemma EmptyLineIsOneEmptyField()
    ensures ParseLine("") == [""]
  {
  }

  // ---------------------------------------------------------------- writing

  function EscapeAll(fields: seq<string>): (r: seq<string>)
    ensures |r| == |fields|
  {
    if fields == [] then [] else [Escape(fields[0])] + EscapeAll(fields[1..])
  }

  /** The line written for `fields`: each escaped, joined by commas. */
  function FieldsRow(fields: seq<string>): string
    requires |fields| >= 1
  {
    Join(EscapeAll(fields), [Comma])
  }

  /** `orders.csv`: `timestamp,escape(customer),total`; only the name is escaped. */
  function OrderRow(timestamp: string, customer: string, total: string): string {
    Join([timestamp, Escape(customer), total], [Comma])
  }

  /** `order_items.csv`: `timestamp,escape(item),qty,lineTotal`; only the item is escaped. */
  function ItemRow(timestamp: string, item: string, qty: string, lineTotal: string): string {
    Join([timestamp, Escape(item), qty, lineTotal], [Comma])
  }

  // ---------------------------------------------------------------- round trip

  lemma {:induction false} PlainFieldParse(f: string, t: string, cur: string, done: seq<string>)
    requires Plain(f)
    ensures ParseFrom(f + t, false, cur, done) == ParseFrom(t, false, cur + f, done)
  {
    if f == [] {
      assert f + t == t && cur + f == cur;
    } else {
      assert f[0] in f;
      assert (f + t)[1..] == f[1..] + t;
      PlainFieldParse(f[1..], t, cur + [f[0]], done);
      assert cur + [f[0]] + f[1..] == cur + f;
    }
  }

  lemma {:induction false} QuotedBodyParse(g: string, t: string, cur: string, done: seq<string>)
    requires t == [] || t[0] == Comma
    ensures ParseFrom(DoubleQuotes(g) + [Quote] + t, true, cur, done) == ParseFrom(t, false, cur + g, done)
  {
    var s := DoubleQuotes(g) + [Quote] + t;
    if g == [] {
      assert s == [Quote] + t;
      assert s[1..] == t;
      assert cur + g == cur;
    } else if g[0] == Quote {
      var rest := DoubleQuotes(g[1..]) + [Quote] + t;
      assert s == [Quote, Quote] + rest;
      assert s[0] == Quote && s[1] == Quote && s[2..] == rest;
      assert ParseFrom(s, true, cur, done) == ParseFrom(rest, true, cur + [Quote], done);
      QuotedBodyParse(g[1..], t, cur + [Quote], done);
      assert cur + [Quote] + g[1..] == cur + g;
    } else {
      var rest := DoubleQuotes(g[1..]) + [Quote] + t;
      assert s == [g[0]] + rest;
      assert s[0] == g[0] && s[1..] == rest;
      assert ParseFrom(s, true, cur, done) == ParseFrom(rest, true, cur + [g[0]], done);
      QuotedBodyParse(g[1..], t, cur + [g[0]], done);
      assert cur + [g[0]] + g[1..] == cur + g;
    }
  }

  lemma QuotedFieldParse(f: string, t: string, done: seq<string>)
    requires t == [] || t[0] == Comma
    ensures ParseFrom([Quote] + DoubleQuotes(f) + [Quote] + t, false, [], done) == ParseFrom(t, false, f, done)
  {
    var body := DoubleQuotes(f) + [Quote] + t;
    var s := [Quote] + DoubleQuotes(f) + [Quote] + t;
    assert s[0] == Quote && s[1..] == body;
    assert ParseFrom(s, false, [], done) == ParseFrom(body, true, [], done);
    QuotedBodyParse(f, t, [], done);
    assert [] + f == f;
  }

  lemma EscapedFieldParse(f: string, t: string, done: seq<string>)
    requires t == [] || t[0] == Comma
    ensures ParseFrom(Escape(f) + t, false, [], done) == ParseFrom(t, false, f, done)
  {
    if Plain(f) {
      PlainFieldParse(f, t, [], done);
      assert [] + f == f;
    } else {
      QuotedFieldParse(f, t, done);
    }
  }

  lemma {:induction false} FieldsRowParse(fields: seq<string>, done: seq<string>)
    requires |fields| >= 1
    ensures ParseFrom(FieldsRow(fields), false, [], done) == done + fields
    decreases |fields|
  {
    if |fields| == 1 {
      EscapedFieldParse(fields[0], [], done);
      assert FieldsRow(fields) == Escape(fields[0]) + [];
      assert fields == [fields[0]];
    } else {
      var rest := FieldsRow(fields[1..]);
      assert EscapeAll(fields)[1..] == EscapeAll(fields[1..]);
      assert FieldsRow(fields) == Escape(fields[0]) + ([Comma] + rest);
      EscapedFieldParse(fields[0], [Comma] + rest, done);
      assert ([Comma] + rest)[1..] == rest;
      FieldsRowParse(fields[1..], done + [fields[0]]);
      assert done + [fields[0]] + fields[1..] == done + fields;
    }
  }

  /** Round trip: parsing the written row gives back exactly the fields written. */
  lemma CsvRoundTrip(fields: seq<string>)
    requires |fields| >= 1
    ensures ParseLine(FieldsRow(fields)) == fields
  {
    FieldsRowParse(fields, []);
  }

  lemma EscapeAllCons(f: string, rest: seq<string>)
    ensures EscapeAll([f] + rest) == [Escape(f)] + EscapeAll(rest)
  {
    assert ([f] + rest)[1..] == rest;
  }

  /** The `orders.csv` row reads back as its three fields when timestamp and total are plain. */
  lemma OrderRowRoundTrip(timestamp: string, customer: string, total: string)
    requires Plain(timestamp) && Plain(total)
    ensures ParseLine(OrderRow(timestamp, customer, total)) == [timestamp, customer, total]
  {
    var f := [timestamp, customer, total];
    EscapeAllCons(total, []);
    assert [total] + [] == [total];
    EscapeAllCons(customer, [total]);
    assert [customer] + [total] == f[1..];
    EscapeAllCons(timestamp, f[1..]);
    assert [timestamp] + f[1..] == f;
    assert EscapeAll(f) == [timestamp, Escape(customer), total];
    CsvRoundTrip(f);
  }

  /** The `order_items.csv` row reads back as its four fields when the other three are plain. */
  lemma ItemRowRoundTrip(timestamp: string, item: string, qty: string, lineTotal: string)
    requires Plain(timestamp) && Plain(qty) && Plain(lineTotal)
    ensures ParseLine(ItemRow(timestamp, item, qty, lineTotal)) == [timestamp, item, qty, lineTotal]
  {
    var f := [timestamp, item, qty, lineTotal];
    EscapeAllCons(lineTotal, []);
    assert [lineTotal] + [] == [lineTotal];
    EscapeAllCons(qty, [lineTotal]);
    assert [qty] + [lineTotal] == f[2..];
    EscapeAllCons(item, f[2..]);
    assert [item] + f[2..] == f[1..];
    EscapeAllCons(timestamp, f[1..]);
    assert [timestamp] + f[1..] == f;
    assert EscapeAll(f) == [timestamp, Escape(item), qty, lineTotal];
    CsvRoundTrip(f);
  }

  // ---------------------------------------------------------------- unescape

  /** Starts and ends with a quote (a lone quote does both). */
  predicate QuoteWrapped(s: string) { |s| >= 1 && s[0] == Quote && s[|s| - 1] == Quote }

  /**
   * `unescape`: strip one outer pair of quotes and collapse doubled quotes
   * inside; the identity on anything not wrapped in quotes. For the lone
   * quote `"` Java's `substring(1, 0)` throws: None.
   */
  function Unescape(s: string): (r: Option<string>)
    ensures r == Some(s) <==> !QuoteWrapped(s)
    ensures r.None? <==> s == [Quote]
  {
    if QuoteWrapped(s) then
      if |s| < 2 then None else Some(CollapseQuotes(s[1..|s| - 1]))
    else Some(s)
  }

  /** Unescape inverts Escape on every value. */
  lemma UnescapeEscape(s: string)
    ensures Unescape(Escape(s)) == Some(s)
  {
    if Plain(s) {
      if s != [] {
        assert s[0] in s;
      }
    } else {
      var e := Escape(s);
      assert e[1..|e| - 1] == DoubleQuotes(s);
      CollapseUndoesDouble(s);
    }
  }

  /**
   * The readers unescape a field that parsing has already unescaped: a written
   * value comes back unchanged exactly when it is not wrapped in quotes, and
   * the lone-quote value makes the reader fail.
   */
  lemma UnescapeAfterParse(fields: seq<string>, k: nat)
    requires k < |fields|
    ensures |ParseLine(FieldsRow(fields))| == |fields|
    ensures Unescape(ParseLine(FieldsRow(fields))[k]) == Some(fields[k]) <==> !QuoteWrapped(fields[k])
    ensures Unescape(ParseLine(FieldsRow(fields))[k]).None? <==> fields[k] == [Quote]
  {
    CsvRoundTrip(fields);
  }
}
