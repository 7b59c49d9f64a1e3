/** `parseCSVLine` of app/page.tsx: a two-state scanner that splits one line
    on commas, where a double quote toggles an "inside quotes" flag and is
    never copied, and a comma inside quotes stays in its field. */
module CsvLine {
  import opened Text
  import Seqs

  const Quote: char := '"'
  const Comma: char := ','

  /** The loop state: the finished fields, the field being built and the
      quote flag. */
  datatype Scanner = Scanner(fields: seq<string>, current: string, inQuote: bool)

  const Start: Scanner := Scanner([], "", false)

  /** One iteration of the scanning loop. */
  function Step(st: Scanner, c: char): (r: Scanner)
    ensures r.inQuote <==> (st.inQuote != (c == Quote))
    ensures |r.fields| == |st.fields| + (if c == Comma && !st.inQuote then 1 else 0)
    ensures c != Quote && (c != Comma || st.inQuote) ==> r.current == st.current + [c]
    ensures c == Quote ==> r.fields == st.fields && r.current == st.current
    ensures c == Comma && !st.inQuote ==> r.fields == st.fields + [st.current] && r.current == ""
    ensures c != Quote && (c != Comma || st.inQuote) ==> r.fields == st.fields
  {
    if c == Quote then st.(inQuote := !st.inQuote)
    else if c == Comma && !st.inQuote then Scanner(st.fields + [st.current], "", st.inQuote)
    else st.(current := st.current + [c])
  }

  /** The loop run over the characters of `s`, left to right. */
  function Run(st: Scanner, s: string): Scanner
    decreases |s|
  {
    if |s| == 0 then st else Run(Step(st, s[0]), s[1..])
  }

  lemma {:induction false} RunSnoc(st: Scanner, s: string, c: char)
    ensures Run(st, s + [c]) == Step(Run(st, s), c)
    decreases |s|
  {
    if |s| == 0 {
      assert [c][1..] == [];
    } else {
      assert (s + [c])[1..] == s[1..] + [c];
      RunSnoc(Step(st, s[0]), s[1..], c);
    }
  }

  function Scan(line: string): Scanner {
    Run(Start, line)
  }

  /** The fields before clean-up: the finished ones and the final one
      pushed after the loop. */
  function RawFields(line: string): seq<string> {
    Scan(line).fields + [Scan(line).current]
  }

  /** The regular-expression replacement of `^"|"$` by the empty string: one
      leading and one trailing quote go, if present. */
  function StripQuotes(s: string): (r: string)
    ensures Quote !in s ==> r == s
    ensures |r| <= |s| <= |r| + 2
    ensures r == s[..|r|] || (|r| < |s| && r == s[1..|r| + 1])
    ensures |s| >= 2 && s[0] == Quote && s[|s| - 1] == Quote ==> r == s[1..|s| - 1]
    ensures var lead := if |s| > 0 && s[0] == Quote then 1 else 0;
      var trail := if |s| > lead && s[|s| - 1] == Quote then 1 else 0;
      r == s[lead..|s| - trail]
  {
    var a := if |s| > 0 && s[0] == Quote then s[1..] else s;
    if |a| > 0 && a[|a| - 1] == Quote then a[..|a| - 1] else a
  }

  /** Per-field clean-up: trim, then strip one quote at each end. */
  function Clean(field: string): string {
    StripQuotes(Trim(field))
  }

  /** The number of double quotes in `s`. */
  function QuoteCount(s: string): nat {
    multiset(s)[Quote]
  }

  /** Position `i` holds a comma with an even number of quotes before it,
      that is, a comma outside any quoted region. */
  predicate IsSeparatorAt(s: string, i: nat)
    requires i < |s|
  {
    s[i] == Comma && QuoteCount(s[..i]) % 2 == 0
  }

  /** The number of commas of `s` that lie outside quotes. */
  function SeparatorCount(s: string): nat {
    if |s| == 0 then 0
    else SeparatorCount(s[..|s| - 1]) + (if IsSeparatorAt(s, |s| - 1) then 1 else 0)
  }

  /** The line with every double quote removed. */
  function Unquoted(s: string): string {
    Seqs.Filter(s, c => c != Quote)
  }

  /** `parseCSVLine(line)`. */
  function ParseLine(line: string): (r: seq<string>)
    ensures |r| == SeparatorCount(line) + 1
    ensures forall i :: 0 <= i < |r| ==> Quote !in r[i]
  {
    var raw := RawFields(line);
    ScanFieldCount(line);
    ScanHasNoQuotes(line);
    seq(|raw|, i requires 0 <= i < |raw| => CleanWithoutQuotes(raw[i]); Clean(raw[i]))
  }

  /** Clean-up of a quote-free field is exactly `trim`. */
  lemma CleanWithoutQuotes(field: string)
    requires Quote !in field
    ensures Clean(field) == Trim(field)
    ensures Quote !in Clean(field)
  {
    var t := Trim(field);
    var k := Leading(field);
    assert t == field[k..k + |t|];
    assert Quote !in t by {
      forall i | 0 <= i < |t| ensures t[i] != Quote {
        assert t[i] == field[k + i];
      }
    }
    if |t| > 0 {
      assert t[0] != Quote && t[|t| - 1] != Quote;
    }
  }

  /** The quote flag at the end of a line is the parity of its quotes. */
  lemma {:induction false} ScanQuoteParity(line: string)
    ensures Scan(line).inQuote <==> QuoteCount(line) % 2 == 1
  {
    if |line| > 0 {
      var p := line[..|line| - 1];
      var c := line[|line| - 1];
      assert line == p + [c];
      RunSnoc(Start, p, c);
      ScanQuoteParity(p);
    }
  }

  /** One field is finished for every comma outside quotes. */
  lemma {:induction false} ScanFieldCount(line: string)
    ensures |Scan(line).fields| == SeparatorCount(line)
  {
    if |line| > 0 {
      var p := line[..|line| - 1];
      var c := line[|line| - 1];
      assert line == p + [c];
      assert line[..|line| - 1] == p;
      RunSnoc(Start, p, c);
      ScanFieldCount(p);
      ScanQuoteParity(p);
    }
  }

  /** Quotes only toggle the flag: no field ever receives one. */
  lemma {:induction false} ScanHasNoQuotes(line: string)
    ensures Quote !in Scan(line).current
    ensures forall i :: 0 <= i < |Scan(line).fields| ==> Quote !in Scan(line).fields[i]
  {
    if |line| > 0 {
      var p := line[..|line| - 1];
      var c := line[|line| - 1];
      assert line == p + [c];
      RunSnoc(Start, p, c);
      ScanHasNoQuotes(p);
    }
  }

  lemma JoinExtendLast(parts: seq<string>, last: string, c: char, sep: char)
    ensures Join(parts + [last + [c]], sep) == Join(parts + [last], sep) + [c]
  {
    if |parts| == 0 {
    } else {
      JoinSnoc(parts, last + [c], sep);
      JoinSnoc(parts, last, sep);
    }
  }

  /** Nothing but quotes is lost: joining the raw fields with commas gives
      back the line without its quotes. */
  lemma {:induction false} RawFieldsJoinToUnquoted(line: string)
    ensures Join(RawFields(line), Comma) == Unquoted(line)
  {
    if |line| > 0 {
      var p := line[..|line| - 1];
      var c := line[|line| - 1];
      assert line == p + [c];
      RunSnoc(Start, p, c);
      RawFieldsJoinToUnquoted(p);
      Seqs.FilterSnoc(p, c, c => c != Quote);
      var st := Scan(p);
      if c == Quote {
      } else if c == Comma && !st.inQuote {
        assert RawFields(line) == (st.fields + [st.current]) + [""];
        JoinSnoc(st.fields + [st.current], "", Comma);
      } else {
        JoinExtendLast(st.fields, st.current, c, Comma);
      }
    }
  }

  /** Without quotes the scanner never keeps a comma inside a field. */
  lemma {:induction false} QuoteFreeFieldsHaveNoComma(line: string)
    requires Quote !in line
    ensures !Scan(line).inQuote
    ensures NoneContains(RawFields(line), Comma)
  {
    if |line| > 0 {
      var p := line[..|line| - 1];
      var c := line[|line| - 1];
      assert line == p + [c];
      assert Quote !in p by {
        forall i | 0 <= i < |p| ensures p[i] != Quote {
          assert p[i] == line[i];
        }
      }
      RunSnoc(Start, p, c);
      QuoteFreeFieldsHaveNoComma(p);
      assert NoneContains(Scan(p).fields, Comma) by {
        forall i | 0 <= i < |Scan(p).fields| ensures Comma !in Scan(p).fields[i] {
          assert Scan(p).fields[i] == RawFields(p)[i];
        }
      }
      assert Comma !in Scan(p).current by {
        assert Scan(p).current == RawFields(p)[|RawFields(p)| - 1];
      }
    }
  }

  lemma UnquotedWithoutQuotes(s: string)
    requires Quote !in s
    ensures Unquoted(s) == s
  {
    Seqs.FilterKeepsAll(s, c => c != Quote);
  }

  /** For a line without quotes `parseCSVLine` is the comma split of the
      line with every piece trimmed. */
  lemma QuoteFreeLineIsTrimmedSplit(line: string)
    requires Quote !in line
    ensures |ParseLine(line)| == |Split(line, Comma)|
    ensures forall i :: 0 <= i < |ParseLine(line)| ==> ParseLine(line)[i] == Trim(Split(line, Comma)[i])
  {
    var raw := RawFields(line);
    QuoteFreeRawFieldsAreSplit(line);
    ScanHasNoQuotes(line);
    forall i | 0 <= i < |raw| ensures Clean(raw[i]) == Trim(raw[i]) {
      CleanWithoutQuotes(raw[i]);
    }
  }

  /** Without quotes the scanner's raw fields are the comma split. */
  lemma QuoteFreeRawFieldsAreSplit(line: string)
    requires Quote !in line
    ensures RawFields(line) == Split(line, Comma)
  {
    QuoteFreeFieldsHaveNoComma(line);
    RawFieldsJoinToUnquoted(line);
    UnquotedWithoutQuotes(line);
    JoinInjective(RawFields(line), Split(line, Comma), Comma);
  }

  lemma {:induction false} RunAppend(st: Scanner, a: string, b: string)
    ensures Run(st, a + b) == Run(Run(st, a), b)
    decreases |a|
  {
    if |a| == 0 {
      assert a + b == b;
    } else {
      assert (a + b)[0] == a[0];
      assert (a + b)[1..] == a[1..] + b;
      RunAppend(Step(st, a[0]), a[1..], b);
    }
  }

  /** Text without quotes, and without commas unless inside quotes, is
      copied into the current field unchanged. */
  lemma {:induction false} RunPlainText(st: Scanner, s: string)
    requires Quote !in s
    requires st.inQuote || Comma !in s
    ensures Run(st, s) == st.(current := st.current + s)
    decreases |s|
  {
    if |s| > 0 {
      assert s[0] in s;
      assert forall c :: c in s[1..] ==> c in s;
      RunPlainText(Step(st, s[0]), s[1..]);
      assert st.current + [s[0]] + s[1..] == st.current + s;
    }
  }

  /** A quoted piece of text, commas included, lands in the current field
      without its quotes. */
  lemma QuotedText(st: Scanner, s: string)
    requires !st.inQuote && Quote !in s
    ensures Run(st, [Quote] + s + [Quote]) == st.(current := st.current + s)
  {
    RunAppend(st, [Quote], s + [Quote]);
    assert [Quote] + s + [Quote] == [Quote] + (s + [Quote]);
    var inside := st.(inQuote := true);
    assert Run(st, [Quote]) == inside;
    RunSnoc(inside, s, Quote);
    RunPlainText(inside, s);
  }

  /** Fields finished before a run are carried through it untouched. */
  lemma {:induction false} RunKeepsEarlierFields(st: Scanner, earlier: seq<string>, s: string)
    ensures Run(st.(fields := earlier + st.fields), s)
         == Run(st, s).(fields := earlier + Run(st, s).fields)
    decreases |s|
  {
    if |s| > 0 {
      var next := Step(st, s[0]);
      if s[0] != Quote && s[0] == Comma && !st.inQuote {
        assert earlier + st.fields + [st.current] == earlier + (st.fields + [st.current]);
      }
      assert Step(st.(fields := earlier + st.fields), s[0]) == next.(fields := earlier + next.fields);
      RunKeepsEarlierFields(next, earlier, s[1..]);
    }
  }

  lemma QuotedFirstRawField(text: string, rest: string)
    requires Quote !in text
    ensures RawFields([Quote] + text + [Quote] + [Comma] + rest) == [text] + RawFields(rest)
  {
    var quoted := [Quote] + text + [Quote];
    var line := quoted + [Comma] + rest;
    var afterQuoted := Scanner([], text, false);
    var afterComma := Scanner([text], "", false);
    assert Run(Start, quoted) == afterQuoted by {
      QuotedText(Start, text);
      assert Start.current + text == text;
    }
    assert Scan(line) == Run(afterComma, rest) by {
      assert line == quoted + ([Comma] + rest);
      RunAppend(Start, quoted, [Comma] + rest);
      RunAppend(afterQuoted, [Comma], rest);
      assert Run(afterQuoted, [Comma]) == afterComma;
    }
    var tail := Scan(rest);
    assert Run(afterComma, rest) == tail.(fields := [text] + tail.fields) by {
      RunKeepsEarlierFields(Start, [text], rest);
      assert afterComma == Start.(fields := [text] + Start.fields);
    }
    assert RawFields(line) == [text] + tail.fields + [tail.current];
  }

  /** A quoted first field keeps its commas, loses its quotes, and the rest
      of the line is parsed as if it stood alone. */
  lemma QuotedFirstField(text: string, rest: string)
    requires Quote !in text
    ensures ParseLine([Quote] + text + [Quote] + [Comma] + rest) == [Trim(text)] + ParseLine(rest)
  {
    QuotedFirstRawField(text, rest);
    CleanWithoutQuotes(text);
  }

  /** The quoted comma of `"Product, Special",5,...` stays in the first field. */
  lemma QuotedCommaStaysInField(rest: string)
    ensures ParseLine("\"Product, Special\"," + rest) == ["Product, Special"] + ParseLine(rest)
  {
    ProductSpecialIsTrimmed();
    QuotedProductSpecial(rest);
    QuotedFirstField("Product, Special", rest);
  }

  lemma ProductSpecialIsTrimmed()
    ensures Quote !in "Product, Special"
    ensures Trim("Product, Special") == "Product, Special"
  {
    TrimKeepsTrimmed("Product, Special");
  }

  lemma QuotedProductSpecial(rest: string)
    ensures "\"Product, Special\"," + rest == [Quote] + "Product, Special" + [Quote] + [Comma] + rest
  {}

  /** The loop of `parseCSVLine`, over mutable locals, proved equal to
      `ParseLine`. */
  method ParseCsvLine(line: string) returns (result: seq<string>)
    ensures result == ParseLine(line)
  {
    var fields: seq<string> := [];
    var current := "";
    var inQuote := false;
    var i := 0;
    while i < |line|
      invariant 0 <= i <= |line|
      invariant Run(Scanner(fields, current, inQuote), line[i..]) == Scan(line)
    {
      var c := line[i];
      assert line[i..] == [c] + line[i + 1..];
      if c == Quote {
        inQuote := !inQuote;
      } else if c == Comma && !inQuote {
        fields := fields + [current];
        current := "";
      } else {
        current := current + [c];
      }
      i := i + 1;
    }
    fields := fields + [current];
    result := seq(|fields|, k requires 0 <= k < |fields| => Clean(fields[k]));
  }
}
