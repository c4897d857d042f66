/** Printing a note as Markdown with frontmatter, and parsing it back. */
module Frontmatter {
  import opened Wrappers
  import opened Text
  import Seqs

  /******* Replacing substrings *******/

  /** `s.replaceAll(from, to)`: left to right, without looking at what was put in. */
  function ReplaceAll(s: string, from: string, to: string): string
    requires from != ""
  {
    if s == "" then ""
    else if from <= s then to + ReplaceAll(s[|from|..], from, to)
    else [s[0]] + ReplaceAll(s[1..], from, to)
  }

  const BACKSLASH := "\\"
  const QUOTE := "\""

  function EscapeYaml(value: string): string {
    ReplaceAll(ReplaceAll(value, BACKSLASH, "\\\\"), QUOTE, "\\\"")
  }

  function UnescapeDouble(inner: string): string {
    ReplaceAll(ReplaceAll(inner, "\\\"", QUOTE), "\\\\", BACKSLASH)
  }

  function UnquoteYaml(value: string): string {
    if |value| < 2 then value
    else
      var quote := value[0];
      if (quote != '"' && quote != '\'') || value[|value| - 1] != quote then value
      else
        var inner := value[1..|value| - 1];
        if quote == '"' then UnescapeDouble(inner) else ReplaceAll(inner, "''", "'")
  }

  /** A single character starts a text exactly when it is its first; a pair only when both are. */
  lemma Starts(s: string, p: string)
    requires s != "" && p != ""
    ensures p <= s ==> s[0] == p[0] && (|p| > 1 ==> |s| > 1 && s[1] == p[1])
    ensures |p| == 1 ==> (p <= s <==> s[0] == p[0])
  {
    if |p| == 1 && s[0] == p[0] {
      assert s[..1] == p;
    }
  }

  lemma {:induction false} QuotesComeBack(t: string)
    ensures ReplaceAll(ReplaceAll(t, QUOTE, "\\\""), "\\\"", QUOTE) == t
  {
    if t != "" {
      QuotesComeBack(t[1..]);
      NoBareQuote(t[1..]);
      Starts(t, QUOTE);
      var e := ReplaceAll(t[1..], QUOTE, "\\\"");
      if t[0] == '"' {
        var whole := "\\\"" + e;
        assert whole[2..] == e && whole[..2] == "\\\"";
      } else {
        var whole := [t[0]] + e;
        assert whole[1..] == e;
        Starts(whole, "\\\"");
      }
    }
  }

  /** Escaping goes character by character: a backslash and a quote get a backslash before them, all else stays. */
  lemma {:induction false} EscapesOneByOne(c: char, s: string)
    ensures EscapeYaml("") == ""
    ensures EscapeYaml([c] + s) == (if c == '\\' then "\\\\" else if c == '"' then "\\\"" else [c]) + EscapeYaml(s)
  {
    var t := [c] + s;
    assert t[1..] == s && t[0] == c;
    Starts(t, BACKSLASH);
    var r := ReplaceAll(s, BACKSLASH, "\\\\");
    if c == '\\' {
      var whole := "\\\\" + r;
      assert ReplaceAll(t, BACKSLASH, "\\\\") == whole;
      assert whole[1..][1..] == r && whole[0] == '\\' && whole[1..][0] == '\\';
      Starts(whole, QUOTE);
      Starts(whole[1..], QUOTE);
      assert ReplaceAll(whole, QUOTE, "\\\"") == ['\\'] + (['\\'] + ReplaceAll(r, QUOTE, "\\\""));
    } else {
      var whole := [c] + r;
      assert whole[1..] == r;
      Starts(whole, QUOTE);
    }
  }

  /** In single quotes a doubled quote stands for one. */
  lemma {:induction false} SingleQuotesComeBack(s: string)
    ensures ReplaceAll(ReplaceAll(s, "'", "''"), "''", "'") == s
    ensures UnquoteYaml("'" + ReplaceAll(s, "'", "''") + "'") == s
  {
    var e := ReplaceAll(s, "'", "''");
    var v := "'" + e + "'";
    assert v[1..|v| - 1] == e;
    if s != "" {
      SingleQuotesComeBack(s[1..]);
      Starts(s, "'");
      var f := ReplaceAll(s[1..], "'", "''");
      if s[0] == '\'' {
        var whole := "''" + f;
        assert whole[2..] == f && whole[..2] == "''";
      } else {
        var whole := [s[0]] + f;
        assert whole[1..] == f;
        Starts(whole, "''");
      }
    }
  }

  /** A text whose quotes are escaped never starts with a bare one. */
  lemma NoBareQuote(t: string)
    ensures var e := ReplaceAll(t, QUOTE, "\\\""); e == "" || e[0] != '"'
  {
  }

  lemma {:induction false} BackslashesComeBack(s: string)
    ensures ReplaceAll(ReplaceAll(s, BACKSLASH, "\\\\"), "\\\\", BACKSLASH) == s
  {
    if s != "" {
      BackslashesComeBack(s[1..]);
      Starts(s, BACKSLASH);
      var e := ReplaceAll(s[1..], BACKSLASH, "\\\\");
      if s[0] == '\\' {
        var whole := "\\\\" + e;
        assert whole[2..] == e && whole[..2] == "\\\\";
      } else {
        var whole := [s[0]] + e;
        assert whole[1..] == e;
        Starts(whole, "\\\\");
      }
    }
  }

  /** Unquoting undoes quoting for every string, although both sides replace globally and one after the other. */
  lemma UnquoteUndoesEscape(s: string)
    ensures UnquoteYaml("\"" + EscapeYaml(s) + "\"") == s
  {
    hide ReplaceAll;
    var e := EscapeYaml(s);
    var v := "\"" + e + "\"";
    assert v[1..|v| - 1] == e;
    QuotesComeBack(ReplaceAll(s, BACKSLASH, "\\\\"));
    BackslashesComeBack(s);
  }

  /******* Line terminators *******/

  predicate IsTerminator(c: char) { c == '\n' || c == '\r' || c == '\U{2028}' || c == '\U{2029}' }

  predicate OneLine(s: string) { forall c :: c in s ==> !IsTerminator(c) }

  lemma {:induction false} ReplaceAllOneLine(s: string, from: string, to: string)
    requires from != "" && OneLine(s) && OneLine(to)
    ensures OneLine(ReplaceAll(s, from, to))
  {
    hide IsTerminator;
    if s != "" {
      if from <= s {
        ReplaceAllOneLine(s[|from|..], from, to);
      } else {
        ReplaceAllOneLine(s[1..], from, to);
        assert s[0] in s;
      }
    }
  }

  lemma EscapeOneLine(s: string)
    requires OneLine(s)
    ensures OneLine(EscapeYaml(s))
  {
    hide ReplaceAll;
    ReplaceAllOneLine(s, BACKSLASH, "\\\\");
    ReplaceAllOneLine(ReplaceAll(s, BACKSLASH, "\\\\"), QUOTE, "\\\"");
  }

  /******* Lines *******/

  /** `lines.join('\n')`. */
  function Join(lines: seq<string>): string {
    if lines == [] then "" else if |lines| == 1 then lines[0] else lines[0] + "\n" + Join(lines[1..])
  }

  /** `s.split('\n')`. */
  function Split(s: string): (r: seq<string>)
    ensures |r| >= 1
  {
    if s == "" then [""]
    else if s[0] == '\n' then [""] + Split(s[1..])
    else var rest := Split(s[1..]); [[s[0]] + rest[0]] + rest[1..]
  }

  lemma {:induction false} SplitOneLine(s: string)
    requires '\n' !in s
    ensures Split(s) == [s]
  {
    if s != "" {
      assert s[0] in s;
      SplitOneLine(s[1..]);
      assert [s[0]] + s[1..] == s;
    }
  }

  lemma {:induction false} SplitFirst(line: string, rest: string)
    requires '\n' !in line
    ensures Split(line + "\n" + rest) == [line] + Split(rest)
  {
    var s := line + "\n" + rest;
    if line == "" {
      assert s[0] == '\n' && s[1..] == rest;
    } else {
      assert line[0] in line;
      SplitFirst(line[1..], rest);
      assert s[1..] == line[1..] + "\n" + rest;
      assert [line[0]] + line[1..] == line;
    }
  }

  lemma {:induction false} SplitUndoesJoin(lines: seq<string>)
    requires lines != [] && forall l :: l in lines ==> '\n' !in l
    ensures Split(Join(lines)) == lines
  {
    if |lines| == 1 {
      SplitOneLine(lines[0]);
    } else {
      SplitUndoesJoin(lines[1..]);
      SplitFirst(lines[0], Join(lines[1..]));
    }
  }

  lemma {:induction false} JoinAppend(a: seq<string>, b: seq<string>)
    requires a != [] && b != []
    ensures Join(a + b) == Join(a) + "\n" + Join(b)
  {
    if |a| == 1 {
      assert (a + b)[1..] == b;
    } else {
      JoinAppend(a[1..], b);
      assert (a + b)[1..] == a[1..] + b;
    }
  }

  /******* Frontmatter lines *******/

  predicate IsKeyChar(c: char) {
    'A' <= c <= 'Z' || 'a' <= c <= 'z' || '0' <= c <= '9' || c == '_' || c == '-'
  }

  function KeyLength(line: string): (n: nat)
    ensures n <= |line|
    ensures forall i :: 0 <= i < n ==> IsKeyChar(line[i])
    ensures n < |line| ==> !IsKeyChar(line[n])
  {
    if line != "" && IsKeyChar(line[0]) then 1 + KeyLength(line[1..]) else 0
  }

  /** `^([A-Za-z0-9_-]+):\s*(.*)$`, where `.` stops at a line terminator; the value is trimmed and unquoted. */
  function ParseLine(line: string): Option<(string, string)> {
    var n := KeyLength(line);
    if n == 0 || n == |line| || line[n] != ':' || !OneLine(TrimStart(line[n + 1..])) then None
    else Some((line[..n], UnquoteYaml(Trim(TrimStart(line[n + 1..])))))
  }

  /** parseSimpleYaml over the lines; a later line wins. */
  function ParseLines(lines: seq<string>): map<string, string> {
    if lines == [] then map[]
    else
      var values := ParseLines(lines[..|lines| - 1]);
      var pair := ParseLine(lines[|lines| - 1]);
      if pair.None? then values else values[pair.value.0 := pair.value.1]
  }

  /** A printed line. */
  function Line(key: string, value: string): string { key + ": " + value }

  function Quoted(s: string): string { "\"" + EscapeYaml(s) + "\"" }

  predicate IsKey(key: string) { key != "" && forall c :: c in key ==> IsKeyChar(c) }

  lemma {:induction false} KeyLengthIs(key: string, rest: string)
    requires IsKey(key) || key == ""
    ensures KeyLength(key + ":" + rest) == |key|
  {
    var line := key + ":" + rest;
    if key != "" {
      assert key[0] in key;
      KeyLengthIs(key[1..], rest);
      assert line[1..] == key[1..] + ":" + rest;
    }
  }

  lemma LineParts(key: string, value: string)
    requires IsKey(key)
    ensures var line := Line(key, value);
      KeyLength(line) == |key| && |line| > |key| && line[..|key|] == key && line[|key|] == ':' && line[|key| + 1..] == " " + value
  {
    hide IsKeyChar;
    var rest := " " + value;
    assert Line(key, value) == key + ":" + rest;
    KeyLengthIs(key, rest);
  }

  lemma SpaceFirst(value: string)
    ensures TrimStart(" " + value) == TrimStart(value)
  {
    var s := " " + value;
    assert IsSpace(s[0]);
    hide IsSpace;
    assert s[1..] == value;
  }

  lemma Suffix(front: string, rest: string, all: string)
    requires all == front + rest && OneLine(all)
    ensures OneLine(rest)
  {
    hide IsTerminator;
    forall c | c in rest ensures c in all {}
  }

  lemma TrimmedOneLine(value: string)
    requires OneLine(value)
    ensures OneLine(TrimStart(value))
  {
    var t := TrimStart(value);
    hide *;
    assert value == value[..|value| - |t|] + t;
    Suffix(value[..|value| - |t|], t, value);
  }

  /** A key, the first colon of the line, and the rest of it. */
  predicate Splits(line: string, key: string, rest: string) { IsKey(key) && line == key + ":" + rest }

  lemma SplitLine(line: string, key: string, rest: string)
    requires Splits(line, key, rest)
    ensures ParseLine(line) == if OneLine(TrimStart(rest)) then Some((key, UnquoteYaml(Trim(rest)))) else None
  {
    hide IsKeyChar, UnquoteYaml, OneLine, Trim, TrimStart;
    KeyLengthIs(key, rest);
    KeyNotEmpty(key);
    TrimSkipsStart(rest);
    assert line[..|key|] == key && line[|key|] == ':' && line[|key| + 1..] == rest;
  }

  lemma ParsedSplits(line: string)
    requires ParseLine(line).Some?
    ensures var key := ParseLine(line).value.0; |key| < |line| && Splits(line, key, line[|key| + 1..])
  {
    hide IsKeyChar, UnquoteYaml, OneLine, Trim, TrimStart;
    var n := KeyLength(line);
    forall c | c in line[..n] ensures IsKeyChar(c) {}
    assert line == line[..n] + ":" + line[n + 1..];
  }

  /** A line is a setting exactly when it starts with a key and a colon and the rest is one line, apart from white space at its start. */
  lemma ParseLineIff(line: string, key: string, value: string)
    ensures ParseLine(line) == Some((key, value))
      <==> exists rest :: Splits(line, key, rest) && OneLine(TrimStart(rest)) && value == UnquoteYaml(Trim(rest))
  {
    hide *;
    forall rest | Splits(line, key, rest) {
      SplitLine(line, key, rest);
    }
    if ParseLine(line) == Some((key, value)) {
      ParsedSplits(line);
    }
  }

  lemma TrimSkipsStart(s: string)
    ensures Trim(TrimStart(s)) == Trim(s)
  {
    assert TrimStart(TrimStart(s)) == TrimStart(s);
  }

  /** A line `key: value` parses to the trimmed and unquoted value. */
  lemma ParseKeyLine(key: string, value: string)
    requires IsKey(key) && OneLine(value)
    ensures ParseLine(Line(key, value)) == Some((key, UnquoteYaml(Trim(TrimStart(value)))))
  {
    hide UnquoteYaml, Trim, TrimStart, OneLine, Line, IsKeyChar, KeyLength;
    LineParts(key, value);
    SpaceFirst(value);
    TrimmedOneLine(value);
    KeyNotEmpty(key);
  }

  lemma KeyNotEmpty(key: string)
    requires IsKey(key)
    ensures |key| > 0
  {
  }

  /** A quoted value comes back as it was. */
  lemma ParseQuotedLine(key: string, value: string)
    requires IsKey(key) && OneLine(value)
    ensures OneLine(Quoted(value)) && ParseLine(Line(key, Quoted(value))) == Some((key, value))
  {
    hide EscapeYaml, UnquoteYaml, Trim, TrimStart, Line;
    EscapeOneLine(value);
    ParseKeyLine(key, Quoted(value));
    TrimOfTight(Quoted(value));
    UnquoteUndoesEscape(value);
  }

  /** An unquoted value without outer white space or quotes comes back as it was. */
  predicate Plain(value: string) {
    OneLine(value) && (value == "" || (!IsSpace(value[0]) && !IsSpace(value[|value| - 1]) && value[0] != '"' && value[0] != '\''))
  }

  lemma ParsePlainLine(key: string, value: string)
    requires IsKey(key) && Plain(value)
    ensures ParseLine(Line(key, value)) == Some((key, value))
  {
    ParseKeyLine(key, value);
    TrimOfTight(value);
  }
}
