/** Writing one CSV field as both exports of the app do (`escapeCSV` in
    components/StudentSummary.tsx and components/SessionLog.tsx), close to rules 6 and 7 of
    section 2 of RFC 4180, and reading it back. */
module Csv {
  import opened Options

  /** The pattern `/("|,|\n)/` finds a match. */
  predicate NeedsQuotes(s: string)
  {
    '"' in s || ',' in s || '\n' in s
  }

  /** `s.replace(/"/g, '""')`. */
  function DoubleQuotes(s: string): (r: string)
    ensures '"' !in s ==> r == s
  {
    if s == [] then []
    else (if s[0] == '"' then "\"\"" else [s[0]]) + DoubleQuotes(s[1..])
  }

  /** `escapeCSV`: `undefined` becomes an empty quoted field; a value with a quote, comma or line
      break is quoted with its quotes doubled; anything else is written as it is. */
  function EscapeCsv(f: Option<string>): string
  {
    match f
    case None => "\"\""
    case Some(s) => if NeedsQuotes(s) then "\"" + DoubleQuotes(s) + "\"" else s
  }

  /** Reading doubled quotes back. */
  function UndoubleQuotes(s: string): string
  {
    if s == [] then []
    else if |s| >= 2 && s[0] == '"' && s[1] == '"' then "\"" + UndoubleQuotes(s[2..])
    else [s[0]] + UndoubleQuotes(s[1..])
  }

  /** Reading a field back as a CSV reader does: a quoted field loses its quotes and each
      doubled quote inside becomes one. */
  function ReadField(f: string): string
  {
    if |f| >= 2 && f[0] == '"' && f[|f| - 1] == '"' then UndoubleQuotes(f[1..|f| - 1]) else f
  }

  lemma {:induction false} UndoubleDouble(s: string)
    ensures UndoubleQuotes(DoubleQuotes(s)) == s
  {
    if s != [] {
      UndoubleDouble(s[1..]);
      var d := DoubleQuotes(s);
      if s[0] == '"' {
        assert d == "\"\"" + DoubleQuotes(s[1..]);
        assert d[2..] == DoubleQuotes(s[1..]);
      } else {
        assert d == [s[0]] + DoubleQuotes(s[1..]);
        assert d[1..] == DoubleQuotes(s[1..]);
      }
    }
  }

  /** Round trip: every value reads back from its escaped field, and `undefined` reads back as
      the empty string. */
  lemma EscapeCsvRoundTrip(s: string)
    ensures ReadField(EscapeCsv(Some(s))) == s
    ensures ReadField(EscapeCsv(None)) == ""
  {
    if NeedsQuotes(s) {
      var r := EscapeCsv(Some(s));
      assert r[1..|r| - 1] == DoubleQuotes(s);
      UndoubleDouble(s);
    } else if |s| >= 2 {
      assert s[0] in s;
    }
  }

  /** An unquoted field holds no quote, comma or line break, so it cannot split a line. */
  lemma UnquotedFieldIsPlain(f: Option<string>)
    ensures var r := EscapeCsv(f);
      r == [] || r[0] != '"' ==> !NeedsQuotes(r)
  {
  }
}
