/**
  The CSV side of scripts/downloadResumes.js and scripts/downloadResumesFlat.js: `csvEscape`,
  the line `appendCsvRow` appends, the two headers, and a reader for the CSV dialect of
  RFC 4180 section 2 (records ended by LF) against which the writer is proved.
*/
module Csv {
  import opened Wrappers
  import opened Js

  /** `String(value ?? '')`. */
  function Text(v: Value): string {
    if IsNullish(v) then "" else Render(v)
  }

  /** The test `/[",\n]/`: only a quote, a comma or a line feed forces quoting (a lone `\r` does not). */
  predicate NeedsQuotes(s: string) {
    '"' in s || ',' in s || '\n' in s
  }

  /** `s.replace(/"/g, '""')`. */
  function DoubleQuotes(s: string): (r: string)
    ensures '"' !in s ==> r == s
  {
    if s == [] then [] else (if s[0] == '"' then "\"\"" else [s[0]]) + DoubleQuotes(s[1..])
  }

  /** The quoting step of `csvEscape` on the text of a value. */
  function Quote(s: string): (r: string)
    ensures !NeedsQuotes(s) ==> r == s
    ensures NeedsQuotes(s) ==> |r| >= 2 && r[0] == '"' && r[|r| - 1] == '"'
  {
    if NeedsQuotes(s) then "\"" + DoubleQuotes(s) + "\"" else s
  }

  /** `csvEscape(value)`. */
  function Escape(v: Value): string {
    Quote(Text(v))
  }

  /** `values.map(csvEscape).join(',') + '\n'`. */
  function Line(values: seq<Value>): string {
    Join(seq(|values|, k requires 0 <= k < |values| => Escape(values[k])), ",") + "\n"
  }

  /** The same line, from the texts of the values. */
  function TextLine(texts: seq<string>): string {
    Join(seq(|texts|, k requires 0 <= k < |texts| => Quote(texts[k])), ",") + "\n"
  }

  function Texts(values: seq<Value>): (r: seq<string>)
    ensures |r| == |values| && forall k :: 0 <= k < |values| ==> r[k] == Text(values[k])
  {
    seq(|values|, k requires 0 <= k < |values| => Text(values[k]))
  }

  lemma LineOfTexts(values: seq<Value>)
    ensures Line(values) == TextLine(Texts(values))
  {
    var texts := Texts(values);
    assert seq(|values|, k requires 0 <= k < |values| => Escape(values[k]))
      == seq(|texts|, k requires 0 <= k < |texts| => Quote(texts[k]));
  }

  /** The header lines of the two scripts: the column names joined by `,`, then a line feed. */
  const NestedColumns: seq<string> :=
    ["candidate_id", "full_name", "job_name", "uploaded_at", "url", "local_path", "file_size", "sha256"]
  const FlatColumns: seq<string> :=
    ["candidate_id", "full_name", "uploaded_at", "url", "local_path", "file_size", "sha256"]

  function Header(columns: seq<string>): string {
    Join(columns, ",") + "\n"
  }

  // ---------------------------------------------------------------------------------
  // Reading back (the LF-terminated CSV dialect of RFC 4180 section 2)

  /** An unquoted field: everything up to the next `,` or line break. */
  function Unquoted(s: string): (r: (string, string))
    ensures r.0 + r.1 == s
    ensures ',' !in r.0 && '\n' !in r.0
    ensures r.1 == [] || r.1[0] == ',' || r.1[0] == '\n'
  {
    if s == [] || s[0] == ',' || s[0] == '\n' then ([], s)
    else
      var (f, rest) := Unquoted(s[1..]);
      ([s[0]] + f, rest)
  }

  /** The rest of a quoted field after its opening quote: `""` stands for `"`, a single `"` closes it. */
  function Quoted(s: string): (r: Option<(string, string)>)
    ensures r.Some? ==> |r.value.1| < |s|
  {
    if s == [] then None
    else if s[0] == '"' then
      if |s| > 1 && s[1] == '"' then
        match Quoted(s[2..])
        case None => None
        case Some((f, rest)) => Some(("\"" + f, rest))
      else Some(([], s[1..]))
    else
      match Quoted(s[1..])
      case None => None
      case Some((f, rest)) => Some(([s[0]] + f, rest))
  }

  /** One field, quoted or not, and what follows it. */
  function Field(s: string): (r: Option<(string, string)>)
    ensures r.Some? ==> |r.value.1| <= |s|
  {
    if s != [] && s[0] == '"' then Quoted(s[1..]) else Some(Unquoted(s))
  }

  /** A record: fields separated by `,` and ended by a line break; `None` when malformed. */
  function Record(s: string): Option<seq<string>>
    decreases |s|
  {
    match Field(s)
    case None => None
    case Some((f, rest)) =>
      if rest == "\n" then Some([f])
      else if rest != [] && rest[0] == ',' then
        match Record(rest[1..])
        case None => None
        case Some(fs) => Some([f] + fs)
      else None
  }

  /** How `DoubleQuotes` writes one character. */
  function Doubled(c: char): string {
    if c == '"' then "\"\"" else [c]
  }

  lemma Regroup(a: string, b: string, c: string, d: string)
    ensures a + b + c + d == a + (b + c + d)
  {
  }

  lemma DoubleQuotesCons(t: string, rest: string)
    requires t != []
    ensures DoubleQuotes(t) + "\"" + rest == Doubled(t[0]) + (DoubleQuotes(t[1..]) + "\"" + rest)
  {
    assert DoubleQuotes(t) == Doubled(t[0]) + DoubleQuotes(t[1..]);
    Regroup(Doubled(t[0]), DoubleQuotes(t[1..]), "\"", rest);
  }

  /** One step of reading a quoted field: a doubled quote or a plain character, then the rest. */
  lemma QuotedStep(c: char, tail: string)
    ensures Quoted(Doubled(c) + tail) == (match Quoted(tail) case None => None case Some((f, r)) => Some(([c] + f, r)))
  {
    assert ("\"\"" + tail)[2..] == tail;
    assert ([c] + tail)[1..] == tail;
  }

  lemma {:induction false} QuotedRoundTrip(t: string, rest: string)
    requires rest == [] || rest[0] != '"'
    ensures Quoted(DoubleQuotes(t) + "\"" + rest) == Some((t, rest))
  {
    if t != [] {
      QuotedRoundTrip(t[1..], rest);
      DoubleQuotesCons(t, rest);
      QuotedStep(t[0], DoubleQuotes(t[1..]) + "\"" + rest);
      assert t == [t[0]] + t[1..];
    } else {
      assert DoubleQuotes(t) + "\"" + rest == "\"" + rest;
    }
  }

  lemma {:induction false} UnquotedRoundTrip(t: string, rest: string)
    requires ',' !in t && '\n' !in t
    requires rest == [] || rest[0] == ',' || rest[0] == '\n'
    ensures Unquoted(t + rest) == (t, rest)
  {
    if t != [] {
      assert (t + rest)[1..] == t[1..] + rest;
      assert t[0] in t && t == [t[0]] + t[1..];
      UnquotedRoundTrip(t[1..], rest);
    } else {
      assert t + rest == rest;
    }
  }

  lemma QuotedFieldRoundTrip(t: string, rest: string)
    requires NeedsQuotes(t) && rest != [] && (rest[0] == ',' || rest[0] == '\n')
    ensures Field(Quote(t) + rest) == Some((t, rest))
  {
    assert Quote(t) + rest == "\"" + (DoubleQuotes(t) + "\"" + rest);
    QuotedRoundTrip(t, rest);
  }

  lemma PlainFieldRoundTrip(t: string, rest: string)
    requires !NeedsQuotes(t) && rest != [] && (rest[0] == ',' || rest[0] == '\n')
    ensures Field(Quote(t) + rest) == Some((t, rest))
  {
    UnquotedRoundTrip(t, rest);
    assert t != [] ==> t[0] in t;
  }

  /** Reading a quoted-as-needed field back gives its text. */
  lemma FieldRoundTrip(t: string, rest: string)
    requires rest != [] && (rest[0] == ',' || rest[0] == '\n')
    ensures Field(Quote(t) + rest) == Some((t, rest))
  {
    if NeedsQuotes(t) {
      QuotedFieldRoundTrip(t, rest);
    } else {
      PlainFieldRoundTrip(t, rest);
    }
  }

  /** The quoted fields of a line: the first one, a comma, then the line of the others. */
  lemma TextLineCons(texts: seq<string>)
    requires |texts| >= 2
    ensures TextLine(texts) == Quote(texts[0]) + ("," + TextLine(texts[1..]))
  {
    var quoted := seq(|texts|, k requires 0 <= k < |texts| => Quote(texts[k]));
    var rest := texts[1..];
    assert quoted[1..] == seq(|rest|, k requires 0 <= k < |rest| => Quote(rest[k]));
  }

  /** A record is its first field, then either the end of the line or a comma and the other fields. */
  lemma RecordCons(s: string, f: string, rest: string)
    requires Field(s) == Some((f, rest))
    ensures rest == "\n" ==> Record(s) == Some([f])
    ensures rest != [] && rest[0] == ',' && Record(rest[1..]).Some? ==> Record(s) == Some([f] + Record(rest[1..]).value)
  {
  }

  /** A line of texts reads back as exactly those texts. */
  lemma {:induction false} TextLineRoundTrip(texts: seq<string>)
    requires texts != []
    ensures Record(TextLine(texts)) == Some(texts)
    decreases |texts|
  {
    if |texts| == 1 {
      TextLineSingle(texts);
    } else {
      TextLineRoundTrip(texts[1..]);
      TextLineStep(texts);
    }
  }

  /** The base case of `TextLineRoundTrip`: one field and the end of the line. */
  lemma TextLineSingle(texts: seq<string>)
    requires |texts| == 1
    ensures Record(TextLine(texts)) == Some(texts)
  {
    assert TextLine(texts) == Quote(texts[0]) + "\n";
    FieldRoundTrip(texts[0], "\n");
    RecordCons(TextLine(texts), texts[0], "\n");
    assert texts == [texts[0]];
  }

  /** The step of `TextLineRoundTrip`: the first field, a comma, then the rest of the line. */
  lemma TextLineStep(texts: seq<string>)
    requires |texts| >= 2 && Record(TextLine(texts[1..])) == Some(texts[1..])
    ensures Record(TextLine(texts)) == Some(texts)
  {
    var tail := "," + TextLine(texts[1..]);
    TextLineCons(texts);
    FieldRoundTrip(texts[0], tail);
    assert tail[1..] == TextLine(texts[1..]);
    RecordCons(TextLine(texts), texts[0], tail);
    assert texts == [texts[0]] + texts[1..];
  }

  /** A line written by `appendCsvRow` reads back as exactly `String(value ?? '')` of each value. */
  lemma LineRoundTrip(values: seq<Value>)
    requires values != []
    ensures Record(Line(values)) == Some(Texts(values))
  {
    LineOfTexts(values);
    TextLineRoundTrip(Texts(values));
  }

  /** A column name needs no quoting. */
  predicate Plain(s: string) {
    '"' !in s && ',' !in s && '\n' !in s
  }

  /** A header of plain names reads back as those names. */
  lemma HeaderRoundTrip(columns: seq<string>)
    requires columns != [] && forall k :: 0 <= k < |columns| ==> Plain(columns[k])
    ensures Record(Header(columns)) == Some(columns)
  {
    assert seq(|columns|, k requires 0 <= k < |columns| => Quote(columns[k])) == columns;
    TextLineRoundTrip(columns);
  }

  /** The nested script's 8-column header and each of its 8-value lines read back with 8 fields. */
  lemma NestedLineMatchesHeader(values: seq<Value>)
    requires |values| == |NestedColumns|
    ensures Record(Header(NestedColumns)) == Some(NestedColumns) && |NestedColumns| == 8
    ensures Record(Line(values)).Some? && |Record(Line(values)).value| == 8
  {
    HeaderRoundTrip(NestedColumns);
    LineRoundTrip(values);
  }

  /** The flat script's 7-column header and each of its 7-value lines read back with 7 fields. */
  lemma FlatLineMatchesHeader(values: seq<Value>)
    requires |values| == |FlatColumns|
    ensures Record(Header(FlatColumns)) == Some(FlatColumns) && |FlatColumns| == 7
    ensures Record(Line(values)).Some? && |Record(Line(values)).value| == 7
  {
    HeaderRoundTrip(FlatColumns);
    LineRoundTrip(values);
  }

  /** Quoting happens exactly for a quote, a comma or a line feed; a carriage return alone stays bare. */
  lemma EscapeQuotesExactly(v: Value)
    ensures (Escape(v) != [] && Escape(v)[0] == '"') <==> NeedsQuotes(Text(v))
    ensures Escape(Str("a\rb")) == "a\rb"
  {
    var t := Text(v);
    assert Escape(v) == Quote(t);
    if !NeedsQuotes(t) && t != [] {
      assert t[0] in t;
    }
    assert !NeedsQuotes("a\rb");
  }
}
