/**
 * The example-file writer of `create_files.py`: the corpus text of a
 * language, the localist encoding of the cas98 symbols, the LENS example
 * records, the training and test windows over the corpus, and the trials of
 * the two experiment conditions.  File contents are parameters and the text
 * a file would receive is a result.
 */
module CreateFiles {
  import opened Results
  import opened Strings

  /** The language whose corpus carries stress marks and whose encodings are read from one table. */
  const Cas98 := "cas98"

  /** `creat_exp_files` insists on this many trials per condition. */
  const TrialCount := 72

  /** Why no file could be written: an `IndexError`, a `KeyError` or the failed trial-count assertion. */
  datatype WriteFailure = IndexOutOfRange | MissingCode | WrongTrialCount

  // ---------------------------------------------------------------------
  // Corpora (get_corpus)
  // ---------------------------------------------------------------------

  /**
   * `line[:line.find('\t')]`: the text before the first tab, and with no tab
   * (`find` gives -1) everything but the last character.
   */
  function CutStress(line: string): (r: string)
    ensures |r| <= |line| && line[..|r|] == r
    ensures '\t' !in r
    ensures '\t' in line ==> line[|r|] == '\t'
    ensures '\t' !in line ==> |r| == if |line| == 0 then 0 else |line| - 1
  {
    if '\t' in line then line[..IndexOf(line, '\t')]
    else if |line| == 0 then "" else line[..|line| - 1]
  }

  /** `line[1:-1]`: the line without its first and last characters. */
  function StripEnds(line: string): (r: string)
    ensures |r| == if |line| < 2 then 0 else |line| - 2
    ensures forall k :: 0 <= k < |r| ==> r[k] == line[k + 1]
  {
    if |line| < 2 then "" else line[1..|line| - 1]
  }

  /** The cas98 corpus: stress removed, optionally `X` between lines, no `/`, `E` lowered. */
  function Cas98Corpus(wordBoundaries: bool, lines: seq<string>): string
  {
    var cut := seq(|lines|, k requires 0 <= k < |lines| => CutStress(lines[k]));
    var joined :=
      if wordBoundaries then Replace(Replace(Join(cut, "X"), "#X", "#"), "X#", "#")
      else Join(cut, "");
    Replace(Replace(joined, "/", ""), "E", "e")
  }

  /** Any other corpus: lines stripped of their ends and joined, boundaries and breaks normalised. */
  function OtherCorpus(wordBoundaries: bool, lines: seq<string>): string
  {
    var stripped := seq(|lines|, k requires 0 <= k < |lines| => StripEnds(lines[k]));
    var joined := Join(stripped, "");
    var bare := if wordBoundaries then joined else Replace(joined, "X", "");
    Replace(Replace(Replace(Replace(bare, "QX", "Q"), "XQ", "Q"), "\r", ""), "QQ", "Q")
  }

  /** `get_corpus` on the lines `readlines` returned for `lang`. */
  function GetCorpus(lang: string, wordBoundaries: bool, lines: seq<string>): string
  {
    if lang == Cas98 then Cas98Corpus(wordBoundaries, lines) else OtherCorpus(wordBoundaries, lines)
  }

  /** A cas98 corpus has neither stress marks (tabs), nor `/`, nor `E`. */
  lemma Cas98CorpusClean(wordBoundaries: bool, lines: seq<string>)
    ensures var corpus := GetCorpus(Cas98, wordBoundaries, lines);
      '/' !in corpus && 'E' !in corpus && '\t' !in corpus
  {
    var cut := seq(|lines|, k requires 0 <= k < |lines| => CutStress(lines[k]));
    JoinKeepsAbsent(cut, "X", '\t');
    JoinKeepsAbsent(cut, "", '\t');
    var joined :=
      if wordBoundaries then Replace(Replace(Join(cut, "X"), "#X", "#"), "X#", "#")
      else Join(cut, "");
    if wordBoundaries {
      ReplaceKeepsAbsent(Join(cut, "X"), "#X", "#", '\t');
      ReplaceKeepsAbsent(Replace(Join(cut, "X"), "#X", "#"), "X#", "#", '\t');
    }
    var noSlash := Replace(joined, "/", "");
    ReplaceRemovesChar(joined, '/', "");
    ReplaceKeepsAbsent(joined, "/", "", '\t');
    ReplaceKeepsAbsent(noSlash, "E", "e", '/');
    ReplaceKeepsAbsent(noSlash, "E", "e", '\t');
    ReplaceRemovesChar(noSlash, 'E', "e");
  }

  /** Any other corpus never holds a carriage return, and without word boundaries no `X`. */
  lemma OtherCorpusClean(lang: string, wordBoundaries: bool, lines: seq<string>)
    requires lang != Cas98
    ensures '\r' !in GetCorpus(lang, wordBoundaries, lines)
    ensures !wordBoundaries ==> 'X' !in GetCorpus(lang, wordBoundaries, lines)
  {
    var stripped := seq(|lines|, k requires 0 <= k < |lines| => StripEnds(lines[k]));
    var joined := Join(stripped, "");
    var bare := if wordBoundaries then joined else Replace(joined, "X", "");
    var a := Replace(bare, "QX", "Q");
    var b := Replace(a, "XQ", "Q");
    var c := Replace(b, "\r", "");
    ReplaceRemovesChar(b, '\r', "");
    ReplaceKeepsAbsent(c, "QQ", "Q", '\r');
    if !wordBoundaries {
      ReplaceRemovesChar(joined, 'X', "");
      ReplaceKeepsAbsent(bare, "QX", "Q", 'X');
      ReplaceKeepsAbsent(a, "XQ", "Q", 'X');
      ReplaceKeepsAbsent(b, "\r", "", 'X');
      ReplaceKeepsAbsent(c, "QQ", "Q", 'X');
    }
  }

  /** The shape `readlines` gives: a newline can only be a line's last character. */
  predicate ReadLinesShape(lines: seq<string>)
  {
    forall k, j :: 0 <= k < |lines| && 0 <= j < |lines[k]| - 1 ==> lines[k][j] != '\n'
  }

  /** Both kinds of line trimming drop the line break, so the corpus is one line of text. */
  lemma CorpusSingleLine(lang: string, wordBoundaries: bool, lines: seq<string>)
    requires ReadLinesShape(lines)
    ensures '\n' !in GetCorpus(lang, wordBoundaries, lines)
  {
    if lang == Cas98 {
      var cut := seq(|lines|, k requires 0 <= k < |lines| => CutStress(lines[k]));
      forall k | 0 <= k < |cut| ensures '\n' !in cut[k] {
        var line := lines[k];
        forall j | 0 <= j < |cut[k]| ensures cut[k][j] != '\n' {
          assert cut[k][j] == line[j];
        }
      }
      JoinKeepsAbsent(cut, "X", '\n');
      JoinKeepsAbsent(cut, "", '\n');
      var joined :=
        if wordBoundaries then Replace(Replace(Join(cut, "X"), "#X", "#"), "X#", "#")
        else Join(cut, "");
      if wordBoundaries {
        ReplaceKeepsAbsent(Join(cut, "X"), "#X", "#", '\n');
        ReplaceKeepsAbsent(Replace(Join(cut, "X"), "#X", "#"), "X#", "#", '\n');
      }
      ReplaceKeepsAbsent(joined, "/", "", '\n');
      ReplaceKeepsAbsent(Replace(joined, "/", ""), "E", "e", '\n');
    } else {
      var stripped := seq(|lines|, k requires 0 <= k < |lines| => StripEnds(lines[k]));
      forall k | 0 <= k < |stripped| ensures '\n' !in stripped[k] {
        forall j | 0 <= j < |stripped[k]| ensures stripped[k][j] != '\n' {
          assert stripped[k][j] == lines[k][j + 1];
        }
      }
      var joined := Join(stripped, "");
      JoinKeepsAbsent(stripped, "", '\n');
      var bare := if wordBoundaries then joined else Replace(joined, "X", "");
      ReplaceKeepsAbsent(joined, "X", "", '\n');
      var a := Replace(bare, "QX", "Q");
      var b := Replace(a, "XQ", "Q");
      var c := Replace(b, "\r", "");
      ReplaceKeepsAbsent(bare, "QX", "Q", '\n');
      ReplaceKeepsAbsent(a, "XQ", "Q", '\n');
      ReplaceKeepsAbsent(b, "\r", "", '\n');
      ReplaceKeepsAbsent(c, "QQ", "Q", '\n');
    }
  }

  // ---------------------------------------------------------------------
  // The cas98 localist encoding (get_encodings)
  // ---------------------------------------------------------------------

  function Digit(d: nat): (c: char)
    requires d < 10
    ensures '0' <= c <= '9'
  {
    ('0' as int + d) as char
  }

  /** `str(n)` for a natural number: its decimal numeral. */
  function DecimalString(n: nat): (s: string)
    ensures |s| > 0 && forall k :: 0 <= k < |s| ==> '0' <= s[k] <= '9'
    ensures s[0] == '0' <==> n == 0
    decreases n
  {
    if n < 10 then [Digit(n)] else DecimalString(n / 10) + [Digit(n % 10)]
  }

  /** The number a string of decimal digits denotes. */
  function DecimalValue(s: string): nat
  {
    if |s| == 0 then 0
    else
      var c := s[|s| - 1];
      DecimalValue(s[..|s| - 1]) * 10 + (if '0' <= c <= '9' then c as int - '0' as int else 0)
  }

  /** Reading a numeral back gives the number. */
  lemma {:induction false} DecimalRoundTrip(n: nat)
    ensures DecimalValue(DecimalString(n)) == n
    decreases n
  {
    var s := DecimalString(n);
    if n >= 10 {
      DecimalRoundTrip(n / 10);
      assert s[..|s| - 1] == DecimalString(n / 10);
    }
  }

  /** Different numbers have different numerals. */
  lemma DecimalStringInjective(a: nat, b: nat)
    ensures DecimalString(a) == DecimalString(b) <==> a == b
  {
    DecimalRoundTrip(a);
    DecimalRoundTrip(b);
  }

  /** The index of the last data row whose symbol is `s`, or -1. */
  function LastRow(data: seq<seq<string>>, s: string): (i: int)
    ensures -1 <= i < |data|
    ensures i >= 0 ==> |data[i]| > 0 && data[i][0] == s
    ensures forall j :: i < j < |data| ==> |data[j]| == 0 || data[j][0] != s
  {
    if |data| == 0 then -1
    else
      var last := data[|data| - 1];
      if |last| > 0 && last[0] == s then |data| - 1 else LastRow(data[..|data| - 1], s)
  }

  /**
   * The table after the loop has seen `data`, the CSV rows after the header:
   * data row i (counting from 0) maps its symbol to `str(i + 1)` and then `#`
   * is set to `0`; a row without a first field stops the loop.
   */
  function Localist(data: seq<seq<string>>): Option<map<string, string>>
  {
    if |data| == 0 then Some(map[])
    else
      match Localist(data[..|data| - 1])
      case None => None
      case Some(m) =>
        var row := data[|data| - 1];
        if |row| == 0 then None
        else Some(m[row[0] := DecimalString(|data|)]["#" := "0"])
  }

  /** The table exists exactly when every data row has a symbol. */
  lemma {:induction false} LocalistDefined(data: seq<seq<string>>)
    ensures Localist(data).Some? <==> forall i :: 0 <= i < |data| ==> |data[i]| > 0
  {
    if |data| > 0 {
      var prefix := data[..|data| - 1];
      LocalistDefined(prefix);
      assert forall i :: 0 <= i < |prefix| ==> prefix[i] == data[i];
    }
  }

  /** `#` maps to `0` once a row has been read, and is absent before. */
  lemma LocalistBoundary(data: seq<seq<string>>)
    requires Localist(data).Some?
    ensures "#" in Localist(data).value <==> |data| > 0
    ensures "#" in Localist(data).value ==> Localist(data).value["#"] == "0"
  {
  }

  /**
   * Every other symbol of the rows maps to the number of its last row,
   * counting from 1, and no other key is present.
   */
  lemma {:induction false} LocalistLookup(data: seq<seq<string>>, s: string)
    requires Localist(data).Some? && s != "#"
    ensures s in Localist(data).value <==> LastRow(data, s) >= 0
    ensures s in Localist(data).value ==> Localist(data).value[s] == DecimalString(LastRow(data, s) + 1)
  {
    if |data| > 0 {
      var prefix := data[..|data| - 1];
      LocalistLookup(prefix, s);
    }
  }

  /**
   * Each symbol of the table has its own output unit, and none shares the
   * boundary's unit `0`.
   */
  lemma LocalistCodesDistinct(data: seq<seq<string>>, a: string, b: string)
    requires Localist(data).Some?
    requires a in Localist(data).value && b in Localist(data).value && a != b
    ensures Localist(data).value[a] != Localist(data).value[b]
  {
    var m := Localist(data).value;
    LocalistBoundary(data);
    if a != "#" {
      LocalistLookup(data, a);
    }
    if b != "#" {
      LocalistLookup(data, b);
    }
    if a != "#" && b != "#" {
      DecimalStringInjective(LastRow(data, a) + 1, LastRow(data, b) + 1);
    } else if a == "#" {
      assert m[b][0] != '0';
    } else {
      assert m[a][0] != '0';
    }
  }

  /** The localist loop of `get_encodings` for cas98 over the CSV rows, header first. */
  method LocalistEncoding(rows: seq<seq<string>>) returns (r: Option<map<string, string>>)
    ensures r == Localist(if |rows| == 0 then [] else rows[1..])
  {
    var data := if |rows| == 0 then [] else rows[1..];
    var table: map<string, string> := map[];
    for i := 0 to |data|
      invariant Localist(data[..i]) == Some(table)
    {
      var row := data[i];
      if |row| == 0 {
        LocalistDefined(data);
        return None;
      }
      assert data[..i + 1][..i] == data[..i];
      table := table[row[0] := DecimalString(i + 1)];
      table := table["#" := "0"];
    }
    assert data[..|data|] == data;
    r := Some(table);
  }

  // ---------------------------------------------------------------------
  // Example records (write_example)
  // ---------------------------------------------------------------------

  /**
   * The record `write_example` writes for input symbol `i` and target `t`:
   * its name, the event count `1`, and the input and target codes, in the
   * dense (`I:`) or sparse (`i:`) format; a symbol without a code is a
   * `KeyError`.
   */
  function WriteExample(i: char, t: char, incoding: map<string, string>, outcoding: map<string, string>,
                        distributed: bool): (r: Option<string>)
    ensures r.Some? <==> [i] in incoding && [t] in outcoding
  {
    if [i] in incoding && [t] in outcoding then
      Some("name: {" + [i] + " -> " + [t] + "}\n" + "1\n" + (if distributed then "I: " else "i: ") +
           incoding[[i]] + " t: " + outcoding[[t]] + ";\n")
    else None
  }

  /** What one record says: its symbols, their codes and its format. */
  datatype Example = Example(input: char, target: char, inCode: string, outCode: string, distributed: bool)

  /** Reads a record back, taking the input code to end before the first `t`. */
  function ParseExample(record: string): Option<Example>
  {
    if |record| < 26 then None
    else if record[..7] != "name: {" || record[8..12] != " -> " || record[13..17] != "}\n1\n" then None
    else if (record[17] != 'I' && record[17] != 'i') || record[18..20] != ": " then None
    else if record[|record| - 2..] != ";\n" then None
    else
      var codes := record[20..|record| - 2];
      if 't' !in codes then None
      else
        var k := IndexOf(codes, 't');
        if k == 0 || k + 3 > |codes| || codes[k - 1..k + 3] != " t: " then None
        else Some(Example(record[7], record[12], codes[..k - 1], codes[k + 3..], record[17] == 'I'))
  }

  /** A record whose input code has no `t` reads back as what was written. */
  lemma ExampleRoundTrip(i: char, t: char, incoding: map<string, string>, outcoding: map<string, string>,
                         distributed: bool)
    requires [i] in incoding && [t] in outcoding && 't' !in incoding[[i]]
    ensures ParseExample(WriteExample(i, t, incoding, outcoding, distributed).value) ==
      Some(Example(i, t, incoding[[i]], outcoding[[t]], distributed))
  {
    var format := if distributed then "I: " else "i: ";
    var codes := incoding[[i]] + " t: " + outcoding[[t]];
    var record := WriteExample(i, t, incoding, outcoding, distributed).value;
    assert record == "name: {" + [i] + " -> " + [t] + "}\n1\n" + format + codes + ";\n";
    RecordLayout(i, t, format, codes);
    ParseLaidOut(record, i, t, format[0], incoding[[i]], outcoding[[t]]);
  }

  /** A text with the fixed parts of a record where they belong parses into its parts. */
  lemma ParseLaidOut(record: string, i: char, t: char, marker: char, inCode: string, outCode: string)
    requires marker == 'I' || marker == 'i'
    requires 't' !in inCode
    requires |record| == |inCode| + |outCode| + 26
    requires record[..7] == "name: {" && record[7] == i && record[8..12] == " -> " && record[12] == t
    requires record[13..17] == "}\n1\n" && record[17] == marker && record[18..20] == ": "
    requires record[20..|record| - 2] == inCode + " t: " + outCode && record[|record| - 2..] == ";\n"
    ensures ParseExample(record) == Some(Example(i, t, inCode, outCode, marker == 'I'))
  {
    CodesLayout(inCode, outCode);
  }

  /** Where the fixed parts, the symbols and the codes sit in a record. */
  lemma RecordLayout(i: char, t: char, format: string, codes: string)
    requires |format| == 3 && format[1..] == ": "
    ensures var record := "name: {" + [i] + " -> " + [t] + "}\n1\n" + format + codes + ";\n";
      |record| == |codes| + 22 &&
      record[..7] == "name: {" && record[7] == i && record[8..12] == " -> " && record[12] == t &&
      record[13..17] == "}\n1\n" && record[17] == format[0] && record[18..20] == ": " &&
      record[20..|record| - 2] == codes && record[|record| - 2..] == ";\n"
  {
  }

  /** With no `t` in the input code, the first `t` of the codes is the separator's. */
  lemma CodesLayout(inCode: string, outCode: string)
    requires 't' !in inCode
    ensures var codes := inCode + " t: " + outCode;
      var k := |inCode| + 1;
      't' in codes && IndexOf(codes, 't') == k && k + 3 <= |codes| &&
      codes[k - 1..k + 3] == " t: " && codes[..k - 1] == inCode && codes[k + 3..] == outCode
  {
    var codes := inCode + " t: " + outCode;
    var k := |inCode| + 1;
    assert codes[k] == 't';
    assert codes[..k] == inCode + " ";
    IndexOfAt(codes, 't', k);
    assert codes[k - 1..k + 3] == " t: ";
    assert codes[..k - 1] == inCode;
    assert codes[k + 3..] == outCode;
  }

  /** Localist codes are numerals, so every localist record reads back. */
  lemma LocalistCodesNumerals(data: seq<seq<string>>, s: string)
    requires Localist(data).Some? && s in Localist(data).value
    ensures 't' !in Localist(data).value[s]
  {
    LocalistBoundary(data);
    if s != "#" {
      LocalistLookup(data, s);
    }
  }

  // ---------------------------------------------------------------------
  // Example windows (create_training_files, creat_exp_files)
  // ---------------------------------------------------------------------

  /**
   * The loop `for c in range(lo, hi)` writing the example
   * `(text[c], text[c + 1])` for each c: the text written, or the first
   * failure, an index past the end of the text or a symbol without a code.
   */
  function WriteRange(text: string, lo: nat, hi: nat, incoding: map<string, string>,
                      outcoding: map<string, string>, distributed: bool): Result<string, WriteFailure>
    requires lo <= hi
    decreases hi
  {
    if hi == lo then Ok("")
    else
      match WriteRange(text, lo, hi - 1, incoding, outcoding, distributed)
      case Err(e) => Err(e)
      case Ok(written) =>
        if hi >= |text| then Err(IndexOutOfRange)
        else
          match WriteExample(text[hi - 1], text[hi], incoding, outcoding, distributed)
          case None => Err(MissingCode)
          case Some(record) => Ok(written + record)
  }

  /** The records of the pairs `(text[c], text[c + 1])`, c = lo .. hi-1, in order. */
  function Records(text: string, lo: nat, hi: nat, incoding: map<string, string>,
                   outcoding: map<string, string>, distributed: bool): (records: seq<Option<string>>)
    requires lo <= hi < |text|
    ensures |records| == hi - lo
  {
    seq(hi - lo, k requires 0 <= k < hi - lo =>
      WriteExample(text[lo + k], text[lo + k + 1], incoding, outcoding, distributed))
  }

  /** The pair starting at index c has an input code for its symbol and an output code for its target. */
  predicate PairCoded(text: string, c: nat, incoding: map<string, string>, outcoding: map<string, string>)
    requires c + 1 < |text|
  {
    [text[c]] in incoding && [text[c + 1]] in outcoding
  }

  /** Every record of a window is there exactly when each of its pairs has both codes. */
  lemma RecordsPresent(text: string, lo: nat, hi: nat, incoding: map<string, string>,
                       outcoding: map<string, string>, distributed: bool)
    requires lo <= hi < |text|
    ensures AllSome(Records(text, lo, hi, incoding, outcoding, distributed)).Some? <==>
      forall c :: lo <= c < hi ==> PairCoded(text, c, incoding, outcoding)
  {
    var all := Records(text, lo, hi, incoding, outcoding, distributed);
    forall c | lo <= c < hi
      ensures all[c - lo].Some? <==> PairCoded(text, c, incoding, outcoding)
    {
      assert all[c - lo] == WriteExample(text[c], text[c + 1], incoding, outcoding, distributed);
    }
    if AllSome(all).None? {
      var k :| 0 <= k < |all| && all[k].None?;
      assert !PairCoded(text, lo + k, incoding, outcoding);
    }
  }

  /** The records written one after the other, or nothing if one of them is missing. */
  function Concat(records: seq<Option<string>>): Option<string>
  {
    if |records| == 0 then Some("")
    else
      match Concat(records[..|records| - 1])
      case None => None
      case Some(written) =>
        match records[|records| - 1]
        case None => None
        case Some(record) => Some(written + record)
  }

  /** Concatenating the records is joining them when all of them are present. */
  lemma {:induction false} ConcatIsJoin(records: seq<Option<string>>)
    ensures
      var all := AllSome(records);
      Concat(records) == (if all.None? then None else Some(Join(all.value, "")))
  {
    if |records| > 0 {
      var earlier := records[..|records| - 1];
      var last := records[|records| - 1];
      ConcatIsJoin(earlier);
      assert records == earlier + [last];
      AllSomeSnoc(earlier, last);
      if AllSome(earlier).Some? && last.Some? {
        var rs := AllSome(earlier).value;
        JoinSnoc(rs, last.value, "");
        assert Join(rs + [last.value], "") == Join(rs, "") + last.value by {
          if |rs| == 0 { assert Join(rs, "") == ""; }
        }
      }
    }
  }

  /** Within the text, the window writes the concatenation of the records of its pairs. */
  lemma {:induction false} WriteRangeConcat(text: string, lo: nat, hi: nat, incoding: map<string, string>,
                                            outcoding: map<string, string>, distributed: bool)
    requires lo <= hi < |text|
    ensures
      var written := Concat(Records(text, lo, hi, incoding, outcoding, distributed));
      WriteRange(text, lo, hi, incoding, outcoding, distributed) ==
        (if written.None? then Err(MissingCode) else Ok(written.value))
    decreases hi
  {
    if hi > lo {
      WriteRangeConcat(text, lo, hi - 1, incoding, outcoding, distributed);
      var all := Records(text, lo, hi, incoding, outcoding, distributed);
      assert all[..|all| - 1] == Records(text, lo, hi - 1, incoding, outcoding, distributed);
    }
  }

  /**
   * Within the text, the window writes the records of its pairs one after
   * the other, and fails only when some pair has a symbol without a code.
   */
  lemma WriteRangeRecords(text: string, lo: nat, hi: nat, incoding: map<string, string>,
                          outcoding: map<string, string>, distributed: bool)
    requires lo <= hi < |text|
    ensures
      var records := AllSome(Records(text, lo, hi, incoding, outcoding, distributed));
      WriteRange(text, lo, hi, incoding, outcoding, distributed) ==
        (if records.None? then Err(MissingCode) else Ok(Join(records.value, "")))
  {
    WriteRangeConcat(text, lo, hi, incoding, outcoding, distributed);
    ConcatIsJoin(Records(text, lo, hi, incoding, outcoding, distributed));
  }

  /** A window that reaches past the end of the text fails. */
  lemma {:induction false} WriteRangePastEnd(text: string, lo: nat, hi: nat, incoding: map<string, string>,
                                             outcoding: map<string, string>, distributed: bool)
    requires lo < hi && |text| <= hi
    ensures WriteRange(text, lo, hi, incoding, outcoding, distributed).Err?
  {
  }

  /** A failure part way through the loop is the failure of the whole loop. */
  lemma {:induction false} WriteRangeErrStays(text: string, lo: nat, mid: nat, hi: nat,
                                              incoding: map<string, string>, outcoding: map<string, string>,
                                              distributed: bool)
    requires lo <= mid <= hi
    requires WriteRange(text, lo, mid, incoding, outcoding, distributed).Err?
    ensures WriteRange(text, lo, hi, incoding, outcoding, distributed) ==
      WriteRange(text, lo, mid, incoding, outcoding, distributed)
    decreases hi
  {
    if mid < hi {
      WriteRangeErrStays(text, lo, mid, hi - 1, incoding, outcoding, distributed);
    }
  }

  /** The text `create_training_files` writes and the number of training examples it returns. */
  datatype TrainingFiles = TrainingFiles(test: string, train: string, count: nat)

  function Min(a: int, b: int): int
  {
    if a <= b then a else b
  }

  /**
   * `create_training_files`: the test file holds the pairs starting at
   * 0 .. num_test-1 and must lie inside the corpus; the training file holds
   * the next pairs, as many as `num_train` asks for and the corpus still has;
   * with no corpus left at `num_test`, reading `corpus[num_test]` fails.
   */
  function TrainingSpec(corpus: string, numTrain: nat, numTest: nat, incoding: map<string, string>,
                        outcoding: map<string, string>, distributed: bool): Result<TrainingFiles, WriteFailure>
  {
    match WriteRange(corpus, 0, numTest, incoding, outcoding, distributed)
    case Err(e) => Err(e)
    case Ok(test) =>
      if numTrain == 0 then Ok(TrainingFiles(test, "", 0))
      else if numTest >= |corpus| then Err(IndexOutOfRange)
      else
        var count := Min(numTrain, |corpus| - 1 - numTest);
        match WriteRange(corpus, numTest, numTest + count, incoding, outcoding, distributed)
        case Err(e) => Err(e)
        case Ok(train) => Ok(TrainingFiles(test, train, count))
  }

  /**
   * The two loops of `create_training_files`; the training loop stops when
   * `corpus[c + 1]` is past the end.
   */
  method CreateTrainingFiles(corpus: string, numTrain: nat, numTest: nat, incoding: map<string, string>,
                             outcoding: map<string, string>, distributed: bool)
    returns (r: Result<TrainingFiles, WriteFailure>)
    ensures r == TrainingSpec(corpus, numTrain, numTest, incoding, outcoding, distributed)
    ensures r.Ok? ==>
      r.value.count <= numTrain &&
      (r.value.count < numTrain ==> numTest + r.value.count + 1 == |corpus|)
  {
    var test := "";
    for c := 0 to numTest
      invariant WriteRange(corpus, 0, c, incoding, outcoding, distributed) == Ok(test)
    {
      if c + 1 >= |corpus| {
        WriteRangeErrStays(corpus, 0, c + 1, numTest, incoding, outcoding, distributed);
        return Err(IndexOutOfRange);
      }
      var record := WriteExample(corpus[c], corpus[c + 1], incoding, outcoding, distributed);
      if record.None? {
        WriteRangeErrStays(corpus, 0, c + 1, numTest, incoding, outcoding, distributed);
        return Err(MissingCode);
      }
      test := test + record.value;
    }
    var train := "";
    var c := numTest;
    while c < numTest + numTrain
      invariant numTest <= c <= numTest + numTrain
      invariant c > numTest ==> c < |corpus|
      invariant WriteRange(corpus, numTest, c, incoding, outcoding, distributed) == Ok(train)
    {
      if c >= |corpus| {
        return Err(IndexOutOfRange);
      }
      if c + 1 >= |corpus| {
        break;
      }
      var record := WriteExample(corpus[c], corpus[c + 1], incoding, outcoding, distributed);
      if record.None? {
        WriteRangeErrStays(corpus, numTest, c + 1, numTest + Min(numTrain, |corpus| - 1 - numTest),
                           incoding, outcoding, distributed);
        return Err(MissingCode);
      }
      train := train + record.value;
      c := c + 1;
    }
    r := Ok(TrainingFiles(test, train, c - numTest));
  }

  /**
   * The test file of a successful `create_training_files` holds the records
   * of the first `num_test` pairs, in order.
   */
  lemma TestFileRecords(corpus: string, numTrain: nat, numTest: nat, incoding: map<string, string>,
                        outcoding: map<string, string>, distributed: bool)
    requires TrainingSpec(corpus, numTrain, numTest, incoding, outcoding, distributed).Ok?
    ensures
      var files := TrainingSpec(corpus, numTrain, numTest, incoding, outcoding, distributed).value;
      (numTest == 0 ==> files.test == "") &&
      (numTest > 0 ==>
        numTest < |corpus| &&
        var tests := AllSome(Records(corpus, 0, numTest, incoding, outcoding, distributed));
        tests.Some? && files.test == Join(tests.value, ""))
  {
    if numTest > 0 {
      if numTest >= |corpus| {
        WriteRangePastEnd(corpus, 0, numTest, incoding, outcoding, distributed);
      } else {
        WriteRangeRecords(corpus, 0, numTest, incoding, outcoding, distributed);
      }
    }
  }

  /**
   * The training file of a successful `create_training_files` holds the
   * records of the `count` pairs after the test pairs, and `count` is
   * `num_train` cut to the pairs the corpus has left.
   */
  lemma TrainFileRecords(corpus: string, numTrain: nat, numTest: nat, incoding: map<string, string>,
                         outcoding: map<string, string>, distributed: bool)
    requires TrainingSpec(corpus, numTrain, numTest, incoding, outcoding, distributed).Ok?
    ensures
      var files := TrainingSpec(corpus, numTrain, numTest, incoding, outcoding, distributed).value;
      files.count == (if numTrain == 0 then 0 else Min(numTrain, |corpus| - 1 - numTest)) &&
      (numTrain > 0 ==>
        numTest < |corpus| &&
        var trains := AllSome(Records(corpus, numTest, numTest + files.count, incoding, outcoding, distributed));
        trains.Some? && files.train == Join(trains.value, ""))
  {
    if numTrain > 0 {
      var count := Min(numTrain, |corpus| - 1 - numTest);
      WriteRangeRecords(corpus, numTest, numTest + count, incoding, outcoding, distributed);
    }
  }

  /** The training file of a condition: every pair of the text, which must not be empty. */
  function ExpTrainSpec(text: string, incoding: map<string, string>, outcoding: map<string, string>,
                        distributed: bool): Result<string, WriteFailure>
  {
    if |text| == 0 then Err(IndexOutOfRange)
    else WriteRange(text, 0, |text| - 1, incoding, outcoding, distributed)
  }

  /** The `while True` loop of `creat_exp_files` over the training text of a condition. */
  method ExpTrainFile(text: string, incoding: map<string, string>, outcoding: map<string, string>,
                      distributed: bool) returns (r: Result<string, WriteFailure>)
    ensures r == ExpTrainSpec(text, incoding, outcoding, distributed)
  {
    var written := "";
    var k := 0;
    while true
      invariant k < |text| || (k == 0 && |text| == 0)
      invariant WriteRange(text, 0, k, incoding, outcoding, distributed) == Ok(written)
      decreases |text| - k
    {
      if k >= |text| {
        return Err(IndexOutOfRange);
      }
      if k + 1 >= |text| {
        break;
      }
      var record := WriteExample(text[k], text[k + 1], incoding, outcoding, distributed);
      if record.None? {
        WriteRangeErrStays(text, 0, k + 1, |text| - 1, incoding, outcoding, distributed);
        return Err(MissingCode);
      }
      written := written + record.value;
      k := k + 1;
    }
    r := Ok(written);
  }

  /** A successful training file of a condition holds the records of all `len(text) - 1` pairs, in order. */
  lemma ExpTrainRecords(text: string, incoding: map<string, string>, outcoding: map<string, string>,
                        distributed: bool)
    requires ExpTrainSpec(text, incoding, outcoding, distributed).Ok?
    ensures
      var records := AllSome(Records(text, 0, |text| - 1, incoding, outcoding, distributed));
      |text| > 0 && records.Some? && |records.value| == |text| - 1 &&
      ExpTrainSpec(text, incoding, outcoding, distributed).value == Join(records.value, "")
  {
    WriteRangeRecords(text, 0, |text| - 1, incoding, outcoding, distributed);
  }

  /** The test text with line breaks removed and doubled `Q`s collapsed once. */
  function CleanTrials(text: string): string
  {
    Replace(Replace(Replace(text, "\r", ""), "\n", ""), "QQ", "Q")
  }

  /** `[t + 'Q' for t in trials.split('Q')[1:-1]]` on the cleaned test text. */
  function SplitTrials(text: string): seq<string>
  {
    var pieces := Split(CleanTrials(text), "Q");
    var inner := if |pieces| <= 2 then [] else pieces[1..|pieces| - 1];
    seq(|inner|, k requires 0 <= k < |inner| => inner[k] + "Q")
  }

  /**
   * There is one trial fewer than the cleaned text has `Q`s (and none without
   * a `Q`); each trial has its only `Q` at its end and no line breaks.
   */
  lemma SplitTrialsShape(text: string)
    ensures var trials := SplitTrials(text);
      var q := Count(CleanTrials(text), 'Q');
      |trials| == (if q == 0 then 0 else q - 1) &&
      forall k :: 0 <= k < |trials| ==>
        |trials[k]| > 0 && trials[k][|trials[k]| - 1] == 'Q' && 'Q' !in trials[k][..|trials[k]| - 1] &&
        '\r' !in trials[k] && '\n' !in trials[k]
  {
    var clean := CleanTrials(text);
    var noReturn := Replace(text, "\r", "");
    var noBreak := Replace(noReturn, "\n", "");
    ReplaceRemovesChar(text, '\r', "");
    ReplaceKeepsAbsent(noReturn, "\n", "", '\r');
    ReplaceKeepsAbsent(noBreak, "QQ", "Q", '\r');
    ReplaceRemovesChar(noReturn, '\n', "");
    ReplaceKeepsAbsent(noBreak, "QQ", "Q", '\n');
    var pieces := Split(clean, "Q");
    SplitCharCount(clean, 'Q');
    SplitCharPieces(clean, 'Q');
    SplitKeepsAbsent(clean, "Q", '\r');
    SplitKeepsAbsent(clean, "Q", '\n');
    var trials := SplitTrials(text);
    forall k | 0 <= k < |trials|
      ensures |trials[k]| > 0 && trials[k][|trials[k]| - 1] == 'Q' && 'Q' !in trials[k][..|trials[k]| - 1] &&
              '\r' !in trials[k] && '\n' !in trials[k]
    {
      var piece := pieces[k + 1];
      assert trials[k] == piece + "Q";
      assert trials[k][..|trials[k]| - 1] == piece;
    }
  }

  /** The test file of one trial: its `len(trial) - 1` pairs, always in the sparse format. */
  function TrialFile(trial: string, incoding: map<string, string>, outcoding: map<string, string>)
    : Result<string, WriteFailure>
  {
    WriteRange(trial, 0, if |trial| == 0 then 0 else |trial| - 1, incoding, outcoding, false)
  }

  /** The test files of the first `n` trials, or the first failure among them. */
  function TrialFiles(trials: seq<string>, n: nat, incoding: map<string, string>, outcoding: map<string, string>)
    : (r: Result<seq<string>, WriteFailure>)
    requires n <= |trials|
    ensures r.Ok? ==> |r.value| == n
  {
    if n == 0 then Ok([])
    else
      match TrialFiles(trials, n - 1, incoding, outcoding)
      case Err(e) => Err(e)
      case Ok(files) =>
        match TrialFile(trials[n - 1], incoding, outcoding)
        case Err(e) => Err(e)
        case Ok(file) => Ok(files + [file])
  }

  /** Test file k of a successful condition is the file of trial k. */
  lemma {:induction false} TrialFilesAt(trials: seq<string>, n: nat, incoding: map<string, string>,
                                        outcoding: map<string, string>, k: nat)
    requires n <= |trials| && k < n && TrialFiles(trials, n, incoding, outcoding).Ok?
    ensures TrialFile(trials[k], incoding, outcoding) == Ok(TrialFiles(trials, n, incoding, outcoding).value[k])
  {
    if k < n - 1 {
      TrialFilesAt(trials, n - 1, incoding, outcoding, k);
    }
  }

  /** A failure among the first trials is the failure of all of them. */
  lemma {:induction false} TrialFilesErrStays(trials: seq<string>, mid: nat, n: nat,
                                              incoding: map<string, string>, outcoding: map<string, string>)
    requires mid <= n <= |trials| && TrialFiles(trials, mid, incoding, outcoding).Err?
    ensures TrialFiles(trials, n, incoding, outcoding) == TrialFiles(trials, mid, incoding, outcoding)
    decreases n
  {
    if mid < n {
      TrialFilesErrStays(trials, mid, n - 1, incoding, outcoding);
    }
  }

  /** The test files of a condition: exactly 72 trials, one file each. */
  function ExpTestSpec(text: string, incoding: map<string, string>, outcoding: map<string, string>)
    : Result<seq<string>, WriteFailure>
  {
    var trials := SplitTrials(text);
    if |trials| != TrialCount then Err(WrongTrialCount)
    else TrialFiles(trials, |trials|, incoding, outcoding)
  }

  /** The loop over the trials of a condition, each written to its own test file. */
  method ExpTestFiles(text: string, incoding: map<string, string>, outcoding: map<string, string>)
    returns (r: Result<seq<string>, WriteFailure>)
    ensures r == ExpTestSpec(text, incoding, outcoding)
    ensures r.Ok? ==> |r.value| == TrialCount
  {
    var trials := SplitTrials(text);
    if |trials| != TrialCount {
      return Err(WrongTrialCount);
    }
    var files: seq<string> := [];
    for k := 0 to |trials|
      invariant TrialFiles(trials, k, incoding, outcoding) == Ok(files)
    {
      var file := WriteTrial(trials[k], incoding, outcoding);
      if file.Err? {
        TrialFilesErrStays(trials, k + 1, |trials|, incoding, outcoding);
        return Err(file.error);
      }
      files := files + [file.value];
    }
    r := Ok(files);
  }

  /** The loop over the pairs of one trial, always in the sparse format. */
  method WriteTrial(trial: string, incoding: map<string, string>, outcoding: map<string, string>)
    returns (r: Result<string, WriteFailure>)
    ensures r == TrialFile(trial, incoding, outcoding)
  {
    var last := if |trial| == 0 then 0 else |trial| - 1;
    var written := "";
    for j := 0 to last
      invariant WriteRange(trial, 0, j, incoding, outcoding, false) == Ok(written)
    {
      var record := WriteExample(trial[j], trial[j + 1], incoding, outcoding, false);
      if record.None? {
        WriteRangeErrStays(trial, 0, j + 1, last, incoding, outcoding, false);
        return Err(MissingCode);
      }
      written := written + record.value;
    }
    r := Ok(written);
  }

  /** The files `creat_exp_files` writes for one condition. */
  datatype ExpFiles = ExpFiles(train: string, tests: seq<string>)

  /** One condition: its training file, then its test files. */
  function ExpConditionSpec(trainText: string, testText: string, incoding: map<string, string>,
                            outcoding: map<string, string>, distributed: bool): Result<ExpFiles, WriteFailure>
  {
    match ExpTrainSpec(trainText, incoding, outcoding, distributed)
    case Err(e) => Err(e)
    case Ok(train) =>
      match ExpTestSpec(testText, incoding, outcoding)
      case Err(e) => Err(e)
      case Ok(tests) => Ok(ExpFiles(train, tests))
  }

  /** `creat_exp_files`: condition A, then condition B, each from its own training and test texts. */
  method CreatExpFiles(trainA: string, testA: string, trainB: string, testB: string,
                       incoding: map<string, string>, outcoding: map<string, string>, distributed: bool)
    returns (r: Result<(ExpFiles, ExpFiles), WriteFailure>)
    ensures var a := ExpConditionSpec(trainA, testA, incoding, outcoding, distributed);
      var b := ExpConditionSpec(trainB, testB, incoding, outcoding, distributed);
      (a.Err? ==> r == Err(a.error)) &&
      (a.Ok? && b.Err? ==> r == Err(b.error)) &&
      (a.Ok? && b.Ok? ==> r == Ok((a.value, b.value)))
    ensures r.Ok? ==> |r.value.0.tests| == TrialCount && |r.value.1.tests| == TrialCount
  {
    var conditions := [(trainA, testA), (trainB, testB)];
    assert conditions[0] == (trainA, testA) && conditions[1] == (trainB, testB);
    var written: seq<ExpFiles> := [];
    for e := 0 to |conditions|
      invariant |written| == e
      invariant forall j :: 0 <= j < e ==>
        ExpConditionSpec(conditions[j].0, conditions[j].1, incoding, outcoding, distributed) == Ok(written[j])
    {
      var files := ExpCondition(conditions[e].0, conditions[e].1, incoding, outcoding, distributed);
      if files.Err? {
        return Err(files.error);
      }
      written := written + [files.value];
    }
    r := Ok((written[0], written[1]));
  }

  /** The body of the loop over the conditions for one of them. */
  method ExpCondition(trainText: string, testText: string, incoding: map<string, string>,
                      outcoding: map<string, string>, distributed: bool) returns (r: Result<ExpFiles, WriteFailure>)
    ensures r == ExpConditionSpec(trainText, testText, incoding, outcoding, distributed)
    ensures r.Ok? ==> |r.value.tests| == TrialCount
  {
    var train := ExpTrainFile(trainText, incoding, outcoding, distributed);
    if train.Err? {
      return Err(train.error);
    }
    var tests := ExpTestFiles(testText, incoding, outcoding);
    if tests.Err? {
      return Err(tests.error);
    }
    r := Ok(ExpFiles(train.value, tests.value));
  }

  /** Each test file of a condition holds its trial's `len(trial) - 1` pairs, in order, in the sparse format. */
  lemma ExpTestRecords(text: string, incoding: map<string, string>, outcoding: map<string, string>, k: nat)
    requires ExpTestSpec(text, incoding, outcoding).Ok? && k < TrialCount
    ensures var trial := SplitTrials(text)[k];
      var records := AllSome(Records(trial, 0, |trial| - 1, incoding, outcoding, false));
      |trial| > 0 && records.Some? && |records.value| == |trial| - 1 &&
      ExpTestSpec(text, incoding, outcoding).value[k] == Join(records.value, "")
  {
    var trials := SplitTrials(text);
    SplitTrialsShape(text);
    TrialFilesAt(trials, |trials|, incoding, outcoding, k);
    WriteRangeRecords(trials[k], 0, |trials[k]| - 1, incoding, outcoding, false);
  }
}
