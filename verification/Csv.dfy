/** CSV export cells, and the reader of section 2 of RFC 4180 that gets them back. */
module Csv {
  import opened Wrappers

  const QUOTE: char := '"'
  const COMMA: char := ','
  const CR: char := '\r'
  const LF: char := '\n'
  const CRLF: string := [CR, LF]

  /** What `\s` matches in a JavaScript regular expression. */
  predicate Blank(c: char) {
    '\U{0009}' <= c <= '\U{000D}' || c == ' ' || c == '\U{00A0}' || c == '\U{1680}' || '\U{2000}' <= c <= '\U{200A}'
    || c == '\U{2028}' || c == '\U{2029}' || c == '\U{202F}' || c == '\U{205F}' || c == '\U{3000}' || c == '\U{FEFF}'
  }

  predicate Trigger(c: char) {
    c == '=' || c == '+' || c == '-' || c == '@'
  }

  /** A spreadsheet would evaluate it: a trigger after nothing but white space. */
  ghost predicate FormulaLeading(s: string) {
    exists k: nat :: k < |s| && Trigger(s[k]) && forall j | 0 <= j < k :: Blank(s[j])
  }

  predicate LooksLikeFormula(s: string)
    ensures LooksLikeFormula(s) <==> FormulaLeading(s)
  {
    if s == "" then false
    else if Blank(s[0]) then
      assert forall k: nat | k < |s[1..]| :: s[1..][k] == s[k + 1];
      assert FormulaLeading(s[1..]) ==> FormulaLeading(s) by {
        if k: nat :| k < |s[1..]| && Trigger(s[1..][k]) && forall j | 0 <= j < k :: Blank(s[1..][j]) {
          assert forall j | 0 < j <= k :: s[j] == s[1..][j - 1];
          assert Trigger(s[k + 1]);
        }
      }
      assert FormulaLeading(s) ==> FormulaLeading(s[1..]) by {
        if k: nat :| k < |s| && Trigger(s[k]) && forall j | 0 <= j < k :: Blank(s[j]) {
          assert Trigger(s[1..][k - 1]);
        }
      }
      LooksLikeFormula(s[1..])
    else
      assert Trigger(s[0]) ==> FormulaLeading(s);
      Trigger(s[0])
  }

  function Neutralised(raw: string): string {
    if LooksLikeFormula(raw) then "'" + raw else raw
  }

  predicate Delimiting(c: char) {
    c == QUOTE || c == COMMA || c == LF || c == CR
  }

  function Doubled(s: string): string {
    if s == "" then "" else (if s[0] == QUOTE then [QUOTE, QUOTE] else [s[0]]) + Doubled(s[1..])
  }

  /** The value is already text: None for null and undefined. */
  function CsvCell(value: Option<string>): string {
    match value
    case None => ""
    case Some(raw) =>
      var safe := Neutralised(raw);
      if exists k :: 0 <= k < |safe| && Delimiting(safe[k]) then [QUOTE] + Doubled(safe) + [QUOTE] else safe
  }

  /** The text a reader should get back: a quote in front of a formula, every other text as it was, nothing for no value. */
  ghost function ReadBack(value: Option<string>): string {
    match value
    case None => ""
    case Some(raw) => if FormulaLeading(raw) then "'" + raw else raw
  }

  function Record(values: seq<Option<string>>): string
    requires values != []
  {
    if |values| == 1 then CsvCell(values[0]) else CsvCell(values[0]) + [COMMA] + Record(values[1..])
  }

  predicate NoEmptyRecord(rows: seq<seq<Option<string>>>) {
    forall i | 0 <= i < |rows| :: rows[i] != []
  }

  function File(rows: seq<seq<Option<string>>>): string
    requires rows != [] && NoEmptyRecord(rows)
  {
    if |rows| == 1 then Record(rows[0]) else Record(rows[0]) + CRLF + File(rows[1..])
  }

  ghost function ReadBackAll(values: seq<Option<string>>): seq<string> {
    seq(|values|, i requires 0 <= i < |values| => ReadBack(values[i]))
  }

  function Plain(s: string): (r: (string, string))
    ensures |r.1| <= |s|
  {
    if s == "" || Delimiting(s[0]) then ("", s)
    else var (field, rest) := Plain(s[1..]); ([s[0]] + field, rest)
  }

  /** After the opening quote, up to the closing one; two quotes stand for one. */
  function Quoted(s: string): (r: Option<(string, string)>)
    ensures r.Some? ==> |r.value.1| < |s|
  {
    if s == "" then None
    else if s[0] != QUOTE then
      match Quoted(s[1..])
      case None => None
      case Some((field, rest)) => Some(([s[0]] + field, rest))
    else if |s| > 1 && s[1] == QUOTE then
      match Quoted(s[2..])
      case None => None
      case Some((field, rest)) => Some(([QUOTE] + field, rest))
    else Some(("", s[1..]))
  }

  function Field(s: string): (r: Option<(string, string)>)
    ensures r.Some? ==> |r.value.1| <= |s|
  {
    if s != "" && s[0] == QUOTE then Quoted(s[1..]) else Some(Plain(s))
  }

  /** Fields between commas, records between line breaks; None for text that is not CSV. */
  function Parse(s: string): (r: Option<seq<seq<string>>>)
    ensures r.Some? ==> r.value != [] && r.value[0] != []
    decreases |s|
  {
    match Field(s)
    case None => None
    case Some((field, rest)) =>
      if rest == "" then Some([[field]])
      else if rest[0] == COMMA then
        match Parse(rest[1..])
        case None => None
        case Some(rows) => Some([[field] + rows[0]] + rows[1..])
      else if |rest| > 1 && rest[0] == CR && rest[1] == LF then
        match Parse(rest[2..])
        case None => None
        case Some(rows) => Some([[field]] + rows)
      else None
  }

  predicate EndsField(rest: string) {
    rest == "" || rest[0] == COMMA || rest[0] == CR
  }

  lemma {:induction false} PlainRoundTrip(s: string, rest: string)
    requires EndsField(rest) && forall k | 0 <= k < |s| :: !Delimiting(s[k])
    ensures Plain(s + rest) == (s, rest)
  {
    if s == "" {
      assert s + rest == rest;
    } else {
      assert (s + rest)[1..] == s[1..] + rest;
      PlainRoundTrip(s[1..], rest);
      assert s == [s[0]] + s[1..];
    }
  }

  lemma {:induction false} QuotedRoundTrip(s: string, rest: string)
    requires EndsField(rest)
    ensures Quoted(Doubled(s) + [QUOTE] + rest) == Some((s, rest))
  {
    var t := Doubled(s) + [QUOTE] + rest;
    if s == "" {
      assert t == [QUOTE] + rest && t[1..] == rest;
    } else {
      QuotedRoundTrip(s[1..], rest);
      var u := Doubled(s[1..]) + [QUOTE] + rest;
      assert s == [s[0]] + s[1..];
      if s[0] == QUOTE {
        assert t == [QUOTE, QUOTE] + u && t[2..] == u;
      } else {
        assert t == [s[0]] + u && t[1..] == u;
      }
    }
  }

  lemma CellRoundTrip(value: Option<string>, rest: string)
    requires EndsField(rest)
    ensures Field(CsvCell(value) + rest) == Some((ReadBack(value), rest))
  {
    var cell, safe := CsvCell(value), ReadBack(value);
    if exists k :: 0 <= k < |safe| && Delimiting(safe[k]) {
      assert (cell + rest)[1..] == Doubled(safe) + [QUOTE] + rest;
      QuotedRoundTrip(safe, rest);
    } else {
      assert cell == safe;
      PlainRoundTrip(safe, rest);
      assert cell + rest != "" ==> (cell + rest)[0] == if cell == "" then rest[0] else safe[0];
    }
  }

  /** The text is printed as it is unless it holds a quote, comma or line break; then it stands between quotes. */
  lemma QuotedOnlyWhenNeeded(value: Option<string>)
    ensures (forall k | 0 <= k < |ReadBack(value)| :: ReadBack(value)[k] !in ['"', ',', '\r', '\n']) ==> CsvCell(value) == ReadBack(value)
    ensures (exists k :: 0 <= k < |ReadBack(value)| && ReadBack(value)[k] in ['"', ',', '\r', '\n']) ==>
      |CsvCell(value)| >= 2 && CsvCell(value)[0] == '"' && CsvCell(value)[|CsvCell(value)| - 1] == '"'
  {
    var r := ReadBack(value);
    assert forall c :: Delimiting(c) <==> c in ['"', ',', '\r', '\n'];
    if k :| 0 <= k < |r| && r[k] in ['"', ',', '\r', '\n'] {
      assert Delimiting(r[k]);
    }
  }

  lemma ReadCell(value: Option<string>)
    ensures Parse(CsvCell(value)) == Some([[ReadBack(value)]])
  {
    CellRoundTrip(value, "");
    assert CsvCell(value) + "" == CsvCell(value);
  }

  lemma ReadCellThenCell(value: Option<string>, more: string)
    requires Parse(more).Some?
    ensures var rows := Parse(more).value;
      Parse(CsvCell(value) + ([COMMA] + more)) == Some([[ReadBack(value)] + rows[0]] + rows[1..])
  {
    CellRoundTrip(value, [COMMA] + more);
    assert ([COMMA] + more)[1..] == more;
  }

  lemma ReadCellThenRecord(value: Option<string>, more: string)
    requires Parse(more).Some?
    ensures Parse(CsvCell(value) + (CRLF + more)) == Some([[ReadBack(value)]] + Parse(more).value)
  {
    var rest := CRLF + more;
    assert rest[0] == CR && rest[1] == LF && rest[2..] == more;
    CellRoundTrip(value, rest);
  }

  lemma FirstOfAll(values: seq<Option<string>>)
    requires values != []
    ensures ReadBackAll(values) == [ReadBack(values[0])] + ReadBackAll(values[1..])
  {
  }

  lemma {:induction false} ReadRecord(values: seq<Option<string>>)
    requires values != []
    ensures Parse(Record(values)) == Some([ReadBackAll(values)])
  {
    FirstOfAll(values);
    if |values| == 1 {
      assert ReadBackAll(values) == [ReadBack(values[0])];
      ReadCell(values[0]);
    } else {
      ReadRecord(values[1..]);
      assert [ReadBackAll(values)] == [ReadBackAll(values)] + [ReadBackAll(values[1..])][1..];
      var more := Record(values[1..]);
      ReadCellThenCell(values[0], more);
      assert CsvCell(values[0]) + [COMMA] + more == CsvCell(values[0]) + ([COMMA] + more);
    }
  }

  lemma Regroup(a: string, b: string, c: string, d: string)
    ensures (a + b + c) + d == a + (b + (c + d))
  {
  }

  lemma {:induction false} ReadRecordThenRecord(values: seq<Option<string>>, more: string)
    requires values != [] && Parse(more).Some?
    ensures Parse(Record(values) + (CRLF + more)) == Some([ReadBackAll(values)] + Parse(more).value)
  {
    FirstOfAll(values);
    if |values| == 1 {
      assert ReadBackAll(values) == [ReadBack(values[0])];
      ReadCellThenRecord(values[0], more);
    } else {
      ReadRecordThenRecord(values[1..], more);
      var last := Record(values[1..]) + (CRLF + more);
      ReadCellThenCell(values[0], last);
      Regroup(CsvCell(values[0]), [COMMA], Record(values[1..]), CRLF + more);
    }
  }

  ghost function Table(rows: seq<seq<Option<string>>>): seq<seq<string>> {
    if rows == [] then [] else [ReadBackAll(rows[0])] + Table(rows[1..])
  }

  /** A file written cell by cell reads back as the neutralised values, row by row. */
  lemma {:induction false} FileRoundTrip(rows: seq<seq<Option<string>>>)
    requires rows != [] && NoEmptyRecord(rows)
    ensures Parse(File(rows)) == Some(Table(rows))
  {
    if |rows| == 1 {
      assert Table(rows) == [ReadBackAll(rows[0])];
      ReadRecord(rows[0]);
    } else {
      FileRoundTrip(rows[1..]);
      var more := File(rows[1..]);
      ReadRecordThenRecord(rows[0], more);
      assert Record(rows[0]) + CRLF + more == Record(rows[0]) + (CRLF + more);
    }
  }

  /** A formula is what starts with one of the four triggers, after any white space. */
  lemma TriggersAreFour(c: char, blank: string, rest: string)
    requires forall k | 0 <= k < |blank| :: Blank(blank[k])
    ensures c in "=+-@" ==> FormulaLeading(blank + [c] + rest)
    ensures c !in "=+-@" && !Blank(c) ==> !FormulaLeading(blank + [c] + rest)
  {
    var s := blank + [c] + rest;
    assert s[|blank|] == c && forall k | 0 <= k < |blank| :: s[k] == blank[k];
    if c in "=+-@" {
      assert Trigger(s[|blank|]);
    }
  }

  /** The white space of JavaScript, by code point. */
  lemma BlankCharacters(c: char)
    ensures Blank(c) <==>
      c as int in {9, 10, 11, 12, 13, 32, 160, 5760, 8192, 8193, 8194, 8195, 8196, 8197, 8198, 8199, 8200, 8201, 8202}
      || c as int in {8232, 8233, 8239, 8287, 12288, 65279}
  {
  }

  /** No cell reads back as a formula. */
  lemma NothingIsAFormula(value: Option<string>)
    ensures !FormulaLeading(ReadBack(value))
  {
    if value.Some? && LooksLikeFormula(value.value) {
      assert !LooksLikeFormula("'" + value.value);
    }
  }

  /** Two values share a cell exactly when they have the same text, or one is the other neutralised by hand. */
  lemma SameCell(a: string, b: string)
    ensures CsvCell(Some(a)) == CsvCell(Some(b)) <==>
      a == b || (FormulaLeading(b) && a == "'" + b) || (FormulaLeading(a) && b == "'" + a)
  {
    CellRoundTrip(Some(a), "");
    CellRoundTrip(Some(b), "");
    NothingIsAFormula(Some(a));
    NothingIsAFormula(Some(b));
    if ReadBack(Some(a)) == ReadBack(Some(b)) {
      assert a == ("'" + a)[1..] && b == ("'" + b)[1..];
    }
  }
}
