/** A whole note: its heading, its frontmatter, and the round trip. */
module MarkdownNote {
  import opened Wrappers
  import opened Text
  import opened Frontmatter
  import Seqs

  /** Case folding of single characters, as the `i` flag compares them; any folding will do. */
  type Fold = char -> char

  /******* Headings *******/

  predicate SamePrefix(s: string, t: string, fold: Fold) {
    |t| <= |s| && forall i :: 0 <= i < |t| ==> fold(s[i]) == fold(t[i])
  }

  /** What follows `# TITLE` at the start of `s`; `title` is trimmed, so all white space after the `#` is skipped. */
  function AfterHeading(s: string, title: string, fold: Fold): Option<string> {
    if s == "" || s[0] != '#' then None
    else
      var r := TrimStart(s[1..]);
      if |r| == |s| - 1 || !SamePrefix(r, title, fold) then None else Some(r[|title|..])
  }

  /** The white space at the start holds a newline. */
  predicate BreaksLine(s: string) {
    exists i :: 0 <= i < |s| - |TrimStart(s)| && s[i] == '\n'
  }

  /** The test of bodyWithHeading: the body starts with the title as a heading line of its own. */
  predicate HasHeading(trimmed: string, title: string, fold: Fold) {
    var rest := AfterHeading(trimmed, Trim(title), fold);
    rest.Some? && (BreaksLine(rest.value) || TrimStart(rest.value) == "")
  }

  function BodyWithHeading(body: string, title: string, fold: Fold): string {
    var trimmed := Trim(body);
    if Trim(title) == "" || HasHeading(trimmed, title, fold) then trimmed
    else if trimmed != "" then "# " + title + "\n\n" + trimmed
    else "# " + title
  }

  function StripGeneratedHeading(body: string, title: string, fold: Fold): string {
    if Trim(title) == "" then Trim(body)
    else
      var rest := AfterHeading(TrimStart(body), Trim(title), fold);
      if rest.Some? && BreaksLine(rest.value) then Trim(rest.value) else Trim(body)
  }

  /******* Printing and parsing *******/

  /** Dates are the strings the note carries; names are encoded by JSON. */
  datatype Fields = Fields(title: string, id: string, names: seq<string>, created: string, updated: string, trashed: string, favorite: bool, body: string)

  /** JSON of a list of names, and its parser. */
  datatype Codec = Codec(encode: seq<string> -> string, decode: string -> Option<seq<string>>)

  function HeaderLines(f: Fields, json: Codec): (r: seq<string>)
    ensures |r| == 8
  {
    [Line("title", Quoted(f.title)),
     Line("author_id", Quoted(f.id)),
     Line("author_notebooks", Quoted(json.encode(f.names))),
     Line("created_at", f.created),
     Line("updated_at", f.updated),
     Line("trashed_at", f.trashed),
     Line("favorite", FavoriteText(f)),
     Line("tags", "")]
  }

  function FavoriteText(f: Fields): string { if f.favorite then "true" else "false" }

  /** markdownNoteContent. */
  function PrintNote(f: Fields, json: Codec, fold: Fold): string {
    Join(["---"] + HeaderLines(f, json) + ["---", "", TrimEnd(BodyWithHeading(f.body, f.title, fold)), ""])
  }

  function IndexOfFrom(s: string, p: string, from: nat): (r: int)
    ensures r == -1 || from <= r <= |s| - |p|
    decreases |s| - from
  {
    if from + |p| > |s| then -1
    else if s[from..from + |p|] == p then from
    else IndexOfFrom(s, p, from + 1)
  }

  function Normalize(content: string): string { ReplaceAll(content, "\r\n", "\n") }

  function SplitFrontmatter(content: string): (map<string, string>, string) {
    var n := Normalize(content);
    if !("---\n" <= n) then (map[], n)
    else
      var closing := IndexOfFrom(n, "\n---\n", 4);
      if closing == -1 then (map[], n) else (ParseLines(Split(n[4..closing])), n[closing + 5..])
  }

  /** frontmatterString: the value as it is, unless blank. */
  function StringAt(values: map<string, string>, key: string): Option<string> {
    if key in values && Trim(values[key]) != "" then Some(values[key]) else None
  }

  function FirstLine(lines: seq<string>): string {
    if lines == [] then "" else if Trim(lines[0]) != "" then Trim(lines[0]) else FirstLine(lines[1..])
  }

  /** The first line that is not blank, cut to 120 characters. */
  function DeriveTitle(body: string): string {
    var line := FirstLine(Split(body));
    if |line| > 120 then line[..120] else line
  }

  /** parseNotebookNames: the distinct names that are not blank. */
  function ParseNames(value: Option<string>, json: Codec): seq<string> {
    if value.None? then []
    else
      var parsed := json.decode(value.value);
      if parsed.None? then [] else Seqs.Dedupe(Seqs.Filter(parsed.value, name => Trim(name) != ""))
  }

  datatype Parsed = Parsed(sourceId: Option<string>, title: string, body: string, names: seq<string>,
                           created: Option<string>, updated: Option<string>, trashed: Option<string>, favorite: bool)

  /** parseMarkdownNote; `fileTitle` is the title taken from the file name. */
  function ParseNote(content: string, fileTitle: string, json: Codec, fold: Fold): Parsed {
    var (values, body) := SplitFrontmatter(content);
    var derived := if DeriveTitle(body) != "" then DeriveTitle(body) else fileTitle;
    var title := if StringAt(values, "title").Some? then StringAt(values, "title").value else derived;
    var favorite := StringAt(values, "favorite");
    Parsed(StringAt(values, "author_id"), title, StripGeneratedHeading(body, title, fold),
           ParseNames(StringAt(values, "author_notebooks"), json),
           StringAt(values, "created_at"), StringAt(values, "updated_at"), StringAt(values, "trashed_at"),
           favorite.Some? && Lower(favorite.value) == "true")
  }

  /** The first line that is not blank. */
  ghost predicate IsFirstText(lines: seq<string>, k: nat) {
    k < |lines| && Trim(lines[k]) != "" && forall i :: 0 <= i < k ==> Trim(lines[i]) == ""
  }

  lemma {:induction false} FirstLineIs(lines: seq<string>)
    ensures FirstLine(lines) == "" <==> forall i :: 0 <= i < |lines| ==> Trim(lines[i]) == ""
    ensures forall k: nat :: IsFirstText(lines, k) ==> FirstLine(lines) == Trim(lines[k])
  {
    hide Trim;
    if lines != [] {
      FirstLineIs(lines[1..]);
      forall k: nat | IsFirstText(lines, k) ensures FirstLine(lines) == Trim(lines[k]) {
        if k > 0 {
          assert Trim(lines[0]) == "" && IsFirstText(lines[1..], k - 1);
        }
      }
      if FirstLine(lines) == "" {
        forall i | 0 <= i < |lines| ensures Trim(lines[i]) == "" {
          assert i > 0 ==> lines[i] == lines[1..][i - 1];
        }
      }
    }
  }

  /** The title of a text: up to 120 characters of its first line that is not blank, or `otherwise` if all are blank. */
  ghost predicate TitleOfText(title: string, lines: seq<string>, otherwise: string) {
    && ((forall i :: 0 <= i < |lines| ==> Trim(lines[i]) == "") ==> title == otherwise)
    && forall k: nat :: IsFirstText(lines, k) ==>
         title <= Trim(lines[k]) && |title| <= 120 && (|title| == 120 || title == Trim(lines[k]))
  }

  lemma {:induction false} DerivedTitle(body: string, otherwise: string)
    ensures TitleOfText(if DeriveTitle(body) != "" then DeriveTitle(body) else otherwise, Split(body), otherwise)
  {
    hide Split, Trim, FirstLine;
    FirstLineIs(Split(body));
  }

  /** A text without a header has no fields but a title, and keeps its body but for a heading with that title. */
  lemma TextWithoutHeader(content: string, fileTitle: string, json: Codec, fold: Fold)
    requires !("---\n" <= Normalize(content))
    ensures var n := Normalize(content); var p := ParseNote(content, fileTitle, json, fold);
      && p.sourceId.None? && p.created.None? && p.updated.None? && p.trashed.None? && p.names == [] && !p.favorite
      && TitleOfText(p.title, Split(n), fileTitle) && p.body == StripGeneratedHeading(n, p.title, fold)
  {
    hide Normalize, Split, Trim, StripGeneratedHeading, DeriveTitle, TitleOfText;
    DerivedTitle(Normalize(content), fileTitle);
  }

  /******* White space at the ends *******/

  predicate Blank(s: string) { forall i :: 0 <= i < |s| ==> IsSpace(s[i]) }

  predicate Tight(s: string) { s == "" || (!IsSpace(s[0]) && !IsSpace(s[|s| - 1])) }

  lemma Regroup(a: string, b: string, c: string)
    ensures (a + b) + c == a + (b + c)
  {
  }

  lemma FirstStays(t: string, b: string)
    requires t != ""
    ensures (t + b)[0] == t[0]
  {
  }

  lemma TailOf(a: string, b: string, n: nat)
    requires n <= |a|
    ensures (a + b)[..n] == a[..n] && (a + b)[n..] == a[n..] + b
  {
  }

  lemma BlankFirst(ws: string)
    requires Blank(ws) && ws != ""
    ensures IsSpace(ws[0]) && Blank(ws[1..])
  {
    hide IsSpace;
  }

  lemma {:induction false} SkipStart(ws: string, r: string)
    requires Blank(ws) && (r == "" || !IsSpace(r[0]))
    ensures TrimStart(ws + r) == r
  {
    hide IsSpace, Blank;
    if ws == "" {
      assert ws + r == r;
    } else {
      BlankFirst(ws);
      FirstStays(ws, r);
      TailOf(ws, r, 1);
      SkipStart(ws[1..], r);
    }
  }

  lemma {:induction false} SkipEnd(r: string, ws: string)
    requires Blank(ws) && (r == "" || !IsSpace(r[|r| - 1]))
    ensures TrimEnd(r + ws) == r
  {
    hide IsSpace;
    if ws == "" {
      assert r + ws == r;
    } else {
      SkipEnd(r, ws[..|ws| - 1]);
      assert (r + ws)[..|r + ws| - 1] == r + ws[..|ws| - 1];
    }
  }

  lemma SkipBoth(a: string, r: string, b: string)
    requires Blank(a) && Blank(b) && Tight(r)
    ensures Trim(a + r + b) == r
  {
    hide IsSpace;
    if r == "" {
      assert Blank(a + b) && a + r + b == a + b && a + b + "" == a + b;
      SkipStart(a + b, "");
    } else {
      assert a + r + b == a + (r + b);
      SkipStart(a, r + b);
      SkipEnd(r, b);
    }
  }

  lemma StartParts(s: string)
    ensures var t := TrimStart(s); var a := s[..|s| - |t|]; s == a + t && Blank(a)
  {
    hide IsSpace;
  }

  lemma EndParts(t: string)
    ensures var r := TrimEnd(t); var b := t[|r|..]; t == r + b && Blank(b)
  {
    hide IsSpace;
    var r := TrimEnd(t);
    var b := t[|r|..];
    forall i | 0 <= i < |b| ensures IsSpace(b[i]) {
      assert b[i] == t[|r| + i];
    }
  }

  /** Trimming splits a text into blank, tight, blank. */
  lemma TrimParts(s: string) returns (a: string, b: string)
    ensures s == a + Trim(s) + b && Blank(a) && Blank(b) && Tight(Trim(s))
  {
    hide IsSpace, TrimStart, TrimEnd, Blank;
    var t := TrimStart(s);
    a, b := s[..|s| - |t|], t[|TrimEnd(t)|..];
    StartParts(s);
    EndParts(t);
    TightEnds(t);
    assert a + (TrimEnd(t) + b) == a + TrimEnd(t) + b;
  }

  lemma TightEnds(t: string)
    requires t == "" || !IsSpace(t[0])
    ensures Tight(TrimEnd(t))
  {
    hide IsSpace;
    if TrimEnd(t) != "" {
      assert TrimEnd(t)[0] == t[0];
    }
  }

  lemma TrimStartLonger(a: string, b: string)
    requires TrimStart(a) != ""
    ensures TrimStart(a + b) == TrimStart(a) + b
  {
    hide *;
    var t := TrimStart(a);
    var ws := a[..|a| - |t|];
    StartParts(a);
    Regroup(ws, t, b);
    FirstStays(t, b);
    SkipStart(ws, t + b);
  }

  /******* Line ends *******/

  lemma {:induction false} NormalizeAfter(a: string, b: string)
    requires '\r' !in a
    ensures Normalize(a + b) == a + Normalize(b)
  {
    if a == "" {
      assert a + b == b;
    } else {
      assert a[0] in a;
      Starts(a + b, "\r\n");
      NormalizeAfter(a[1..], b);
      assert (a + b)[1..] == a[1..] + b;
    }
  }

  lemma {:induction false} NormalizeBefore(a: string, b: string)
    requires a == "" || a[|a| - 1] != '\r'
    ensures Normalize(a + b) == Normalize(a) + Normalize(b)
  {
    if a == "" {
      assert a + b == b;
    } else if "\r\n" <= a {
      TailOf(a, b, 2);
      NormalizeBefore(a[2..], b);
      Regroup("\n", Normalize(a[2..]), Normalize(b));
    } else {
      NotCrossing(a, b);
      TailOf(a, b, 1);
      FirstStays(a, b);
      NormalizeBefore(a[1..], b);
      Regroup([a[0]], Normalize(a[1..]), Normalize(b));
    }
  }

  lemma NotCrossing(a: string, b: string)
    requires a != "" && a[|a| - 1] != '\r' && !("\r\n" <= a)
    ensures !("\r\n" <= a + b)
  {
    StartsWithPair(a);
    StartsWithPair(a + b);
  }

  lemma StartsWithPair(s: string)
    ensures "\r\n" <= s <==> |s| >= 2 && s[0] == '\r' && s[1] == '\n'
  {
    if |s| >= 2 && s[0] == '\r' && s[1] == '\n' {
      assert s[..2] == "\r\n";
    }
  }

  /** Normalizing never lengthens, and shortens exactly when there is a pair to replace. */
  lemma {:induction false} NormalizeLength(s: string)
    ensures |Normalize(s)| <= |s|
    ensures Normalize(s) == s <==> !HasPair(s)
    ensures HasPair(s) ==> |Normalize(s)| < |s|
  {
    if s != "" {
      Starts(s, "\r\n");
      if "\r\n" <= s {
        NormalizeLength(s[2..]);
        assert s[0] == '\r' && s[1] == '\n';
      } else {
        NormalizeLength(s[1..]);
        assert HasPair(s) <==> HasPair(s[1..]) by { PairTail(s); }
      }
    }
  }

  predicate HasPair(s: string) { exists i :: 0 <= i < |s| - 1 && s[i] == '\r' && s[i + 1] == '\n' }

  lemma PairTail(s: string)
    requires s != "" && !("\r\n" <= s)
    ensures HasPair(s) <==> HasPair(s[1..])
  {
    StartsWithPair(s);
    if i :| 0 <= i < |s| - 1 && s[i] == '\r' && s[i + 1] == '\n' {
      assert s[1..][i - 1] == '\r' && s[1..][i] == '\n';
    }
    if i :| 0 <= i < |s[1..]| - 1 && s[1..][i] == '\r' && s[1..][i + 1] == '\n' {
      assert s[i + 1] == '\r' && s[i + 2] == '\n';
    }
  }

  /** Normalizing keeps a tight text tight. */
  lemma {:induction false} NormalizeTight(s: string)
    requires s != "" && !IsSpace(s[|s| - 1])
    ensures Normalize(s) != "" && !IsSpace(Normalize(s)[|Normalize(s)| - 1])
    ensures !IsSpace(s[0]) ==> Normalize(s)[0] == s[0]
  {
    Starts(s, "\r\n");
    if "\r\n" <= s {
      assert s[0] == '\r' && s[1] == '\n';
      NormalizeTight(s[2..]);
    } else if |s| > 1 {
      NormalizeTight(s[1..]);
      assert Normalize(s) == [s[0]] + Normalize(s[1..]);
    } else {
      assert s[1..] == "" && Normalize("") == "";
      assert Normalize(s) == [s[0]];
    }
  }

  /******* Finding the frontmatter again *******/

  /** No line of the text starts with a dash, and the text does not end in a newline. */
  ghost predicate NoDelimiter(raw: string) {
    forall i :: 0 <= i < |raw| && raw[i] == '\n' ==> i + 1 < |raw| && raw[i + 1] != '-'
  }

  predicate IsHeaderLine(line: string) { line != "" && line[0] != '-' && '\n' !in line }

  lemma {:induction false} JoinHasNoDelimiter(lines: seq<string>)
    requires lines != [] && IsHeaderLine(lines[0]) && forall l :: l in lines ==> IsHeaderLine(l)
    ensures NoDelimiter(Join(lines)) && Join(lines) != "" && Join(lines)[0] == lines[0][0]
  {
    var first := lines[0];
    forall i | 0 <= i < |first| ensures first[i] != '\n' { assert first[i] in first; }
    if |lines| > 1 {
      assert lines[1] in lines;
      JoinHasNoDelimiter(lines[1..]);
      var raw, rest := Join(lines), Join(lines[1..]);
      forall i | 0 <= i < |raw| && raw[i] == '\n' ensures i + 1 < |raw| && raw[i + 1] != '-' {
        if i > |first| {
          assert raw[i] == rest[i - |first| - 1] && (i + 1 < |raw| ==> raw[i + 1] == rest[i - |first|]);
        } else {
          assert raw[|first| + 1] == rest[0];
        }
      }
    }
  }

  /** The closing delimiter is found where the header lines end, whatever follows. */
  lemma {:induction false} ClosingFound(raw: string, tail: string, k: nat)
    requires NoDelimiter(raw) && 4 <= k <= 4 + |raw|
    ensures IndexOfFrom("---\n" + raw + "\n---\n" + tail, "\n---\n", k) == 4 + |raw|
    decreases 4 + |raw| - k
  {
    var n, p := "---\n" + raw + "\n---\n" + tail, "\n---\n";
    if k < 4 + |raw| {
      ClosingFound(raw, tail, k + 1);
      var here := n[k..k + 5];
      assert here[0] == n[k] == raw[k - 4] && here[1] == n[k + 1];
      assert k - 3 < |raw| ==> n[k + 1] == raw[k - 3];
      assert p[0] == '\n' && p[1] == '-';
    } else {
      assert n[k..k + 5] == p;
    }
  }

  lemma PrintedText(header: seq<string>, body: string)
    requires header != []
    ensures Join(["---"] + header + ["---", "", body, ""]) == "---\n" + Join(header) + "\n---\n" + ("\n" + body + "\n")
  {
    var foot := ["---", "", body, ""];
    assert ["---"] + header + foot == ["---"] + (header + foot);
    JoinAppend(["---"], header + foot);
    JoinAppend(header, foot);
    assert Join([body, ""]) == body + "\n" + Join([""]) by { assert [body, ""][1..] == [""]; }
    assert Join(["", body, ""]) == "" + "\n" + Join([body, ""]) by { assert ["", body, ""][1..] == [body, ""]; }
    assert Join(foot) == "---" + "\n" + Join(["", body, ""]) by { assert foot[1..] == ["", body, ""]; }
    assert Join([""]) == "";
    assert body + "\n" + "" == body + "\n" && "" + "\n" + (body + "\n") == "\n" + body + "\n";
    assert "---" + "\n" + ("\n" + body + "\n") == "---\n" + ("\n" + body + "\n");
    assert Join(["---"]) == "---";
  }

  lemma ParseLinesLast(lines: seq<string>, line: string, key: string, value: string)
    requires ParseLine(line) == Some((key, value))
    ensures ParseLines(lines + [line]) == ParseLines(lines)[key := value]
  {
    assert (lines + [line])[..|lines|] == lines;
  }

  /** What the note must be made of: texts on one line each, and a codec that decodes what it encodes. */
  ghost predicate Printable(f: Fields, json: Codec) {
    && OneLine(f.title) && OneLine(f.id) && OneLine(json.encode(f.names))
    && Plain(f.created) && Plain(f.updated) && Plain(f.trashed)
    && json.decode(json.encode(f.names)) == Some(f.names) && Trim(json.encode(f.names)) != ""
  }

  lemma HeaderParses(f: Fields, json: Codec)
    requires Printable(f, json)
    ensures ParseLines(HeaderLines(f, json)) ==
      map["title" := f.title, "author_id" := f.id, "author_notebooks" := json.encode(f.names),
          "created_at" := f.created, "updated_at" := f.updated, "trashed_at" := f.trashed,
          "favorite" := FavoriteText(f), "tags" := ""]
  {
    hide ParseLine, Quoted, Line, OneLine, Trim, Plain, IsKey;
    var h := HeaderLines(f, json);
    KeysAreKeys();
    ParseQuotedLine("title", f.title);
    ParseQuotedLine("author_id", f.id);
    ParseQuotedLine("author_notebooks", json.encode(f.names));
    ParsePlainLine("created_at", f.created);
    ParsePlainLine("updated_at", f.updated);
    ParsePlainLine("trashed_at", f.trashed);
    PlainTexts();
    ParsePlainLine("favorite", FavoriteText(f));
    ParsePlainLine("tags", "");
    assert ParseLines([]) == map[];
    var l1 := [] + [h[0]];
    var l2 := l1 + [h[1]];
    var l3 := l2 + [h[2]];
    var l4 := l3 + [h[3]];
    var l5 := l4 + [h[4]];
    var l6 := l5 + [h[5]];
    var l7 := l6 + [h[6]];
    assert h == l7 + [h[7]];
    ParseLinesLast([], h[0], "title", f.title);
    ParseLinesLast(l1, h[1], "author_id", f.id);
    ParseLinesLast(l2, h[2], "author_notebooks", json.encode(f.names));
    ParseLinesLast(l3, h[3], "created_at", f.created);
    ParseLinesLast(l4, h[4], "updated_at", f.updated);
    ParseLinesLast(l5, h[5], "trashed_at", f.trashed);
    ParseLinesLast(l6, h[6], "favorite", FavoriteText(f));
    ParseLinesLast(l7, h[7], "tags", "");
  }

  lemma KeysAreKeys()
    ensures IsKey("title") && IsKey("author_id") && IsKey("author_notebooks") && IsKey("created_at")
    ensures IsKey("updated_at") && IsKey("trashed_at") && IsKey("favorite") && IsKey("tags")
  {
  }

  lemma PlainTexts()
    ensures Plain("true") && Plain("false") && Plain("")
  {
  }

  /******* The printed note, taken apart *******/

  lemma {:induction false} JoinWithout(lines: seq<string>, c: char)
    requires c != '\n' && forall l :: l in lines ==> c !in l
    ensures c !in Join(lines)
  {
    if |lines| > 1 {
      JoinWithout(lines[1..], c);
    }
  }

  predicate HeaderKey(key: string) { key != "" && key[0] != '-' && OneLine(key) }

  predicate IsCleanLine(line: string) { IsHeaderLine(line) && '\r' !in line }

  lemma LineIsClean(key: string, value: string)
    requires HeaderKey(key) && OneLine(value)
    ensures IsCleanLine(Line(key, value))
  {
    assert key[0] in key;
  }

  lemma HeaderKeys()
    ensures HeaderKey("title") && HeaderKey("author_id") && HeaderKey("author_notebooks") && HeaderKey("created_at")
    ensures HeaderKey("updated_at") && HeaderKey("trashed_at") && HeaderKey("favorite") && HeaderKey("tags")
  {
  }

  lemma ValuesOneLine(f: Fields, json: Codec)
    requires Printable(f, json)
    ensures OneLine(Quoted(f.title)) && OneLine(Quoted(f.id)) && OneLine(Quoted(json.encode(f.names)))
    ensures OneLine(f.created) && OneLine(f.updated) && OneLine(f.trashed) && OneLine(FavoriteText(f)) && OneLine("")
  {
    hide IsTerminator, Trim, IsKey, Quoted;
    KeysAreKeys();
    PlainTexts();
    ParseQuotedLine("title", f.title);
    ParseQuotedLine("author_id", f.id);
    ParseQuotedLine("author_notebooks", json.encode(f.names));
  }

  lemma HeaderIsClean(f: Fields, json: Codec)
    requires Printable(f, json)
    ensures forall l :: l in HeaderLines(f, json) ==> IsCleanLine(l)
  {
    hide Line, OneLine, Quoted, IsCleanLine, HeaderKey, FavoriteText, Printable;
    HeaderKeys();
    ValuesOneLine(f, json);
    LineIsClean("title", Quoted(f.title));
    LineIsClean("author_id", Quoted(f.id));
    LineIsClean("author_notebooks", Quoted(json.encode(f.names)));
    LineIsClean("created_at", f.created);
    LineIsClean("updated_at", f.updated);
    LineIsClean("trashed_at", f.trashed);
    LineIsClean("favorite", FavoriteText(f));
    LineIsClean("tags", "");
  }

  /** The text after the closing delimiter. */
  function Tail(f: Fields, fold: Fold): string { "\n" + TrimEnd(BodyWithHeading(f.body, f.title, fold)) + "\n" }

  /** Splitting a printed note returns its header values and its tail with line ends normalized. */
  lemma PrintedSplits(f: Fields, json: Codec, fold: Fold)
    requires Printable(f, json)
    ensures SplitFrontmatter(PrintNote(f, json, fold)) == (ParseLines(HeaderLines(f, json)), Normalize(Tail(f, fold)))
  {
    var h := HeaderLines(f, json);
    HeaderIsClean(f, json);
    hide HeaderLines, BodyWithHeading, TrimEnd, Normalize, IndexOfFrom, ParseLines, Printable, NoDelimiter;
    PrintedText(h, TrimEnd(BodyWithHeading(f.body, f.title, fold)));
    assert IsHeaderLine(h[0]) by { assert h[0] in h; }
    JoinHasNoDelimiter(h);
    JoinWithout(h, '\r');
    SplitUndoesJoin(h);
    hide Join, IsHeaderLine;
    FrontmatterSplits(Join(h), Tail(f, fold));
  }

  lemma FrontmatterSplits(raw: string, tail: string)
    requires NoDelimiter(raw) && '\r' !in raw
    ensures SplitFrontmatter("---\n" + raw + "\n---\n" + tail) == (ParseLines(Split(raw)), Normalize(tail))
  {
    hide ParseLines, Split, NoDelimiter;
    var front := "---\n" + raw + "\n---\n";
    assert '\r' !in front;
    NormalizeAfter(front, tail);
    var n := front + Normalize(tail);
    assert n[..4] == "---\n";
    ClosingFound(raw, Normalize(tail), 4);
    assert n[4..4 + |raw|] == raw && n[4 + |raw| + 5..] == Normalize(tail);
  }

  lemma NamesKept(names: seq<string>)
    requires Seqs.Distinct(names) && forall n :: n in names ==> Trim(n) != ""
    ensures Seqs.Dedupe(Seqs.Filter(names, name => Trim(name) != "")) == names
  {
    hide Trim;
    Seqs.FilterAll(names, name => Trim(name) != "");
    Seqs.DedupeDistinct(names);
  }

  function NonEmpty(s: string): Option<string> { if s == "" then None else Some(s) }

  lemma PlainBlank(s: string)
    requires Plain(s)
    ensures Trim(s) == s
  {
    TrimOfTight(s);
  }

  /**
   Everything but the body: parsing a printed note returns its title, id, names, dates and favourite mark. An id of
   white space only reads back as no id, and an empty date as no date.
   */
  lemma FieldsReadBack(f: Fields, json: Codec, fold: Fold, fileTitle: string)
    requires Printable(f, json) && Trim(f.title) != ""
    requires Seqs.Distinct(f.names) && forall n :: n in f.names ==> Trim(n) != ""
    ensures
      var p := ParseNote(PrintNote(f, json, fold), fileTitle, json, fold);
      && p.title == f.title && p.names == f.names && p.favorite == f.favorite
      && p.sourceId == (if Trim(f.id) == "" then None else Some(f.id))
      && p.created == NonEmpty(f.created) && p.updated == NonEmpty(f.updated) && p.trashed == NonEmpty(f.trashed)
      && p.body == StripGeneratedHeading(Normalize(Tail(f, fold)), f.title, fold)
  {
    hide *;
    PrintedSplits(f, json, fold);
    ValuesReadBack(f, json);
    NamesKept(f.names);
    FavoriteReadsBack(f);
    ParsedOf(PrintNote(f, json, fold), f, fileTitle, json, fold);
  }

  /** ParseNote once its header values are known. */
  lemma ParsedOf(content: string, f: Fields, fileTitle: string, json: Codec, fold: Fold)
    requires var values := SplitFrontmatter(content).0;
      && StringAt(values, "title") == Some(f.title) && StringAt(values, "author_notebooks") == Some(json.encode(f.names))
      && StringAt(values, "favorite") == Some(FavoriteText(f))
    requires json.decode(json.encode(f.names)) == Some(f.names)
    requires Seqs.Dedupe(Seqs.Filter(f.names, name => Trim(name) != "")) == f.names
    requires Lower(FavoriteText(f)) == "true" <==> f.favorite
    ensures var p := ParseNote(content, fileTitle, json, fold); var values := SplitFrontmatter(content).0;
      && p.title == f.title && p.names == f.names && p.favorite == f.favorite && p.sourceId == StringAt(values, "author_id")
      && p.created == StringAt(values, "created_at") && p.updated == StringAt(values, "updated_at") && p.trashed == StringAt(values, "trashed_at")
      && p.body == StripGeneratedHeading(SplitFrontmatter(content).1, f.title, fold)
  {
    hide Trim, SplitFrontmatter, StringAt, StripGeneratedHeading, DeriveTitle, Lower, FavoriteText;
    Seqs.SameFilter(f.names, name => Trim(name) != "", name => Trim(name) != "");
  }

  lemma ValuesReadBack(f: Fields, json: Codec)
    requires Printable(f, json) && Trim(f.title) != ""
    ensures var values := ParseLines(HeaderLines(f, json));
      && json.decode(json.encode(f.names)) == Some(f.names)
      && StringAt(values, "title") == Some(f.title) && StringAt(values, "author_notebooks") == Some(json.encode(f.names))
      && StringAt(values, "favorite") == Some(FavoriteText(f))
      && StringAt(values, "author_id") == (if Trim(f.id) == "" then None else Some(f.id))
      && StringAt(values, "created_at") == NonEmpty(f.created) && StringAt(values, "updated_at") == NonEmpty(f.updated)
      && StringAt(values, "trashed_at") == NonEmpty(f.trashed)
  {
    hide Trim, HeaderLines, ParseLines, OneLine, Plain, FavoriteText;
    HeaderParses(f, json);
    PlainBlank(f.created);
    PlainBlank(f.updated);
    PlainBlank(f.trashed);
    FavoriteReadsBack(f);
  }

  lemma FavoriteReadsBack(f: Fields)
    ensures Trim(FavoriteText(f)) != "" && (Lower(FavoriteText(f)) == "true" <==> f.favorite)
  {
    PlainTexts();
    PlainBlank(FavoriteText(f));
    assert Lower("true") == "true";
    assert Lower("false")[0] == 'f';
  }

  /******* The body *******/

  lemma OneLineHasNoReturn(s: string)
    requires OneLine(s)
    ensures '\r' !in s && '\n' !in s
  {
  }

  lemma BlankJoin(a: string, b: string)
    requires Blank(a) && Blank(b)
    ensures Blank(a + b)
  {
    hide IsSpace;
  }

  /** White space with a newline in it, in front of a text that starts with none, breaks the line. */
  lemma RunBreaks(ws: string, r: string)
    requires Blank(ws) && '\n' in ws && (r == "" || !IsSpace(r[0]))
    ensures BreaksLine(ws + r)
  {
    hide IsSpace;
    SkipStart(ws, r);
    var i :| 0 <= i < |ws| && ws[i] == '\n';
    assert (ws + r)[i] == '\n';
  }

  lemma SpacesAreSpace()
    ensures IsSpace(' ') && IsSpace('\n') && !IsSpace('#')
  {
  }

  lemma BlankTexts()
    ensures Blank(" ") && Blank("\n") && Blank("\n\n") && Blank("")
  {
    SpacesAreSpace();
  }

  /** What follows a heading, whatever white space surrounds its title. */
  lemma AfterPrintedHeading(a: string, t: string, rest: string, fold: Fold)
    requires Blank(a) && t != "" && !IsSpace(t[0])
    ensures AfterHeading("# " + a + t + rest, t, fold) == Some(rest)
  {
    hide IsSpace, TrimStart;
    var s := "# " + a + t + rest;
    BlankTexts();
    BlankJoin(" ", a);
    assert s[1..] == (" " + a) + (t + rest);
    FirstStays(t, rest);
    SkipStart(" " + a, t + rest);
    assert (t + rest)[|t|..] == rest;
  }

  lemma RestComesOff(ws: string, text: string, last: string)
    requires Blank(ws) && Blank(last) && '\n' in ws && Tight(text)
    ensures BreaksLine(ws + text + last) && Trim(ws + text + last) == text
  {
    hide IsSpace, Trim, TrimStart, TrimEnd, BreaksLine;
    SkipBoth(ws, text, last);
    if text == "" {
      BlankJoin(ws, last);
      RunBreaks(ws + last, "");
      assert ws + text + last == ws + last + "";
    } else {
      assert ws + text + last == ws + (text + last);
      FirstStays(text, last);
      RunBreaks(ws, text + last);
    }
  }

  /** A printed heading is found and taken off again: what stays is the tight text behind it. */
  lemma PrintedHeadingComesOff(printed: string, title: string, gap: string, text: string, last: string, fold: Fold)
    requires Trim(printed) == Trim(title) != "" && Blank(gap) && '\n' in gap && Tight(text) && Blank(last)
    ensures StripGeneratedHeading("\n" + ("# " + printed + gap + text + last), title, fold) == text
  {
    hide IsSpace, Trim, TrimStart, TrimEnd, BreaksLine, Blank, AfterHeading;
    var t := Trim(title);
    var a, b := TrimParts(printed);
    var s, rest := "# " + printed + gap + text + last, b + gap + text + last;
    assert s == "# " + a + t + rest by { Spelled(a, t, b, gap, text, last); }
    BlankTexts();
    assert !IsSpace(s[0]) by { SpacesAreSpace(); }
    SkipStart("\n", s);
    AfterPrintedHeading(a, t, rest, fold);
    BlankJoin(b, gap);
    RestComesOff(b + gap, text, last);
  }

  lemma Spelled(a: string, t: string, b: string, gap: string, text: string, last: string)
    ensures "# " + (a + t + b) + gap + text + last == "# " + a + t + (b + gap + text + last)
  {
  }

  lemma LastStays(front: string, text: string)
    requires text != "" && !IsSpace(text[|text| - 1])
    ensures TrimEnd(front + text) == front + text
  {
    SkipEnd(front + text, "");
    assert front + text + "" == front + text;
  }

  lemma EmptyNormal()
    ensures Normalize("") == "" && Normalize("\n") == "\n"
  {
    NormalizeAfter("\n", "");
    assert "\n" + "" == "\n";
  }

  /** Without a heading of its own, an empty body becomes the heading alone, which comes off whole. */
  lemma EmptyBodyReadsBack(f: Fields, fold: Fold)
    requires Trim(f.title) != "" && OneLine(f.title) && !HasHeading(Trim(f.body), f.title, fold) && Trim(f.body) == ""
    ensures StripGeneratedHeading(Normalize(Tail(f, fold)), f.title, fold) == ""
  {
    hide IsSpace, Trim, TrimStart, TrimEnd, Normalize, OneLine, HasHeading, StripGeneratedHeading, Blank;
    OneLineHasNoReturn(f.title);
    var t := Trim(f.title);
    var p, q := TrimParts(f.title);
    var printed := p + t;
    assert TrimEnd("# " + f.title) == "# " + printed by {
      assert "# " + f.title == ("# " + printed) + q;
      SkipEnd("# " + printed, q);
    }
    assert Trim(printed) == t by { BlankTexts(); SkipBoth(p, t, ""); assert p + t + "" == printed; }
    var tail := "\n" + ("# " + printed + "\n" + "" + "");
    assert Tail(f, fold) == tail;
    assert '\r' !in tail by { forall c | c in printed ensures c in f.title {} }
    NormalizeAfter(tail, "");
    EmptyNormal();
    assert tail + "" == tail;
    BlankTexts();
    PrintedHeadingComesOff(printed, f.title, "\n", "", "", fold);
  }

  lemma TextBodyReadsBack(f: Fields, fold: Fold)
    requires Trim(f.title) != "" && OneLine(f.title) && !HasHeading(Trim(f.body), f.title, fold) && Trim(f.body) != ""
    ensures StripGeneratedHeading(Normalize(Tail(f, fold)), f.title, fold) == Normalize(Trim(f.body))
  {
    hide IsSpace, Trim, TrimStart, TrimEnd, Normalize, OneLine, HasHeading, StripGeneratedHeading, Blank;
    OneLineHasNoReturn(f.title);
    var b := Trim(f.body);
    var x, y := TrimParts(f.body);
    var front := "\n# " + f.title + "\n\n";
    LastStays("# " + f.title + "\n\n", b);
    assert Tail(f, fold) == front + (b + "\n") by { assert "\n" + ("# " + f.title + "\n\n" + b) + "\n" == front + (b + "\n"); }
    NormalizeAfter(front, b + "\n");
    EndNotReturn(b);
    NormalizeBefore(b, "\n");
    EmptyNormal();
    var nb := Normalize(b);
    NormalizeTight(b);
    BlankTexts();
    PrintedHeadingComesOff(f.title, f.title, "\n\n", nb, "\n", fold);
    assert front + (nb + "\n") == "\n" + ("# " + f.title + "\n\n" + nb + "\n");
  }

  lemma EndNotReturn(b: string)
    requires b != "" && !IsSpace(b[|b| - 1])
    ensures b[|b| - 1] != '\r'
  {
  }

  lemma NormalizeBetween(b: string)
    requires b == "" || !IsSpace(b[|b| - 1])
    ensures Normalize("\n" + b + "\n") == "\n" + (Normalize(b) + "\n")
  {
    hide IsSpace, Normalize;
    NormalizeAfter("\n", b + "\n");
    Regroup("\n", b, "\n");
    if b != "" {
      EndNotReturn(b);
    }
    NormalizeBefore(b, "\n");
    EmptyNormal();
  }

  lemma OwnHeadingTail(f: Fields, fold: Fold)
    requires Trim(f.title) != "" && HasHeading(Trim(f.body), f.title, fold)
    ensures var b := Trim(f.body);
      b != "" && Tight(b) && Tail(f, fold) == "\n" + b + "\n"
  {
    hide IsSpace, Trim, TrimStart, TrimEnd, HasHeading, Blank;
    var x, y := TrimParts(f.body);
    HeadingNotEmpty(Trim(f.body), f.title, fold);
    LastStays("", Trim(f.body));
    assert "" + Trim(f.body) == Trim(f.body);
  }

  /** A body that has the title as its own heading loses it. */
  lemma OwnHeadingIsLost(f: Fields, fold: Fold)
    requires Trim(f.title) != "" && HasHeading(Trim(f.body), f.title, fold)
    ensures StripGeneratedHeading(Normalize(Tail(f, fold)), f.title, fold) != Trim(f.body)
  {
    hide IsSpace, Trim, Normalize, HasHeading, StripGeneratedHeading, HasPair, Tail;
    var b := Trim(f.body);
    OwnHeadingTail(f, fold);
    NormalizeBetween(b);
    NormalizeTight(b);
    NormalizeLength(b);
    if HasPair(b) {
      StripShortens(Normalize(b), f.title, fold);
    } else {
      HeadingStripped(b, f.title, fold);
    }
  }

  lemma HeadingNotEmpty(b: string, title: string, fold: Fold)
    requires HasHeading(b, title, fold)
    ensures b != ""
  {
  }

  /** Stripping never returns more than the tight text it is given. */
  lemma StripShortens(b: string, title: string, fold: Fold)
    requires b != "" && Tight(b)
    ensures |StripGeneratedHeading("\n" + (b + "\n"), title, fold)| <= |b|
  {
    hide IsSpace, TrimStart, TrimEnd, Blank, BreaksLine;
    BlankTexts();
    SkipBoth("\n", b, "\n");
    assert "\n" + b + "\n" == "\n" + (b + "\n");
    FirstStays(b, "\n");
    SkipStart("\n", b + "\n");
  }

  /** With a heading line in front, it returns strictly less. */
  lemma HeadingStripped(b: string, title: string, fold: Fold)
    requires b != "" && Tight(b) && Trim(title) != "" && HasHeading(b, title, fold)
    ensures |StripGeneratedHeading("\n" + (b + "\n"), title, fold)| < |b|
  {
    hide IsSpace, TrimStart, TrimEnd, Blank, BreaksLine, Trim;
    var t := Trim(title);
    var rest := AfterHeading(b, t, fold).value;
    BlankTexts();
    FirstStays(b, "\n");
    SkipStart("\n", b + "\n");
    assert (b + "\n")[1..] == b[1..] + "\n";
    TrimStartLonger(b[1..], "\n");
    var r := TrimStart(b[1..]);
    assert (r + "\n")[|t|..] == r[|t|..] + "\n";
    assert SamePrefix(r + "\n", t, fold);
    assert AfterHeading(b + "\n", t, fold) == Some(rest + "\n");
    RestBreaks(rest);
    assert |rest| < |b| - 1;
  }

  /** The text is the title as a heading of its own, and then `rest`, whose white space at the start holds a newline. */
  ghost predicate Headed(body: string, title: string, fold: Fold, rest: string) {
    BreaksLine(rest) && exists ws, gap, head :: HeadedBy(body, Trim(title), fold, ws, gap, head, rest)
  }

  ghost predicate HeadedBy(body: string, title: string, fold: Fold, ws: string, gap: string, head: string, rest: string) {
    && body == ws + "#" + gap + head + rest && Blank(ws) && Blank(gap) && gap != ""
    && head != "" && !IsSpace(head[0]) && |head| == |title| && SamePrefix(head, title, fold)
  }

  /** The importer takes off a heading with the title, and nothing else but white space at the ends. */
  lemma StripIs(body: string, title: string, fold: Fold)
    requires Trim(title) != ""
    ensures forall rest :: Headed(body, title, fold, rest) ==> StripGeneratedHeading(body, title, fold) == Trim(rest)
    ensures (forall rest :: !Headed(body, title, fold, rest)) ==> StripGeneratedHeading(body, title, fold) == Trim(body)
  {
    hide IsSpace, TrimStart, TrimEnd, Trim, Blank, BreaksLine, AfterHeading, HeadedBy;
    var t := Trim(title);
    forall rest | Headed(body, title, fold, rest) ensures StripGeneratedHeading(body, title, fold) == Trim(rest) {
      var ws, gap, head :| HeadedBy(body, t, fold, ws, gap, head, rest);
      HeadFollows(body, t, fold, ws, gap, head, rest);
    }
    var after := AfterHeading(TrimStart(body), t, fold);
    if after.Some? {
      HeadIsThere(body, t, fold);
      assert BreaksLine(after.value) ==> Headed(body, title, fold, after.value);
    }
  }

  lemma HeadFollows(body: string, title: string, fold: Fold, ws: string, gap: string, head: string, rest: string)
    requires HeadedBy(body, title, fold, ws, gap, head, rest)
    ensures AfterHeading(TrimStart(body), title, fold) == Some(rest)
  {
    hide IsSpace, TrimStart, Blank, AfterHeading, SamePrefix;
    var r := head + rest;
    HeadSpelled(ws, gap, head, rest);
    HashIsText();
    SkipStart(ws, "#" + (gap + r));
    SkipStart(gap, r);
    HashComesOff(gap + r);
    PrefixStays(head, rest, title, fold);
    AfterHash("#" + (gap + r), r, title, fold);
  }

  lemma HeadSpelled(ws: string, gap: string, head: string, rest: string)
    ensures ws + "#" + gap + head + rest == ws + ("#" + (gap + (head + rest)))
    ensures head != "" ==> (head + rest)[0] == head[0]
    ensures (head + rest)[|head|..] == rest && |head + rest| == |head| + |rest|
  {
  }

  lemma HashComesOff(s: string)
    ensures ("#" + s)[0] == '#' && ("#" + s)[1..] == s
  {
  }

  lemma HashIsText()
    ensures !IsSpace('#')
  {
  }

  lemma PrefixStays(head: string, rest: string, title: string, fold: Fold)
    requires |head| == |title| && SamePrefix(head, title, fold)
    ensures SamePrefix(head + rest, title, fold)
  {
  }

  lemma AfterHash(s: string, r: string, title: string, fold: Fold)
    requires s != "" && s[0] == '#' && TrimStart(s[1..]) == r && |r| != |s| - 1
    ensures AfterHeading(s, title, fold) == if SamePrefix(r, title, fold) then Some(r[|title|..]) else None
  {
    hide TrimStart;
  }

  lemma AfterFound(s: string, title: string, fold: Fold)
    requires AfterHeading(s, title, fold).Some?
    ensures s != "" && s[0] == '#'
    ensures var r := TrimStart(s[1..]);
      |r| < |s| - 1 && |title| <= |r| && SamePrefix(r, title, fold) && AfterHeading(s, title, fold) == Some(r[|title|..])
  {
    hide TrimStart;
  }

  lemma HeadIsThere(body: string, title: string, fold: Fold)
    requires title != "" && AfterHeading(TrimStart(body), title, fold).Some?
    ensures exists ws, gap, head :: HeadedBy(body, title, fold, ws, gap, head, AfterHeading(TrimStart(body), title, fold).value)
  {
    hide IsSpace, TrimStart, Blank, HeadedBy, AfterHeading, SamePrefix;
    var s := TrimStart(body);
    AfterFound(s, title, fold);
    var r := TrimStart(s[1..]);
    StartParts(body);
    StartParts(s[1..]);
    HeadCut(body, title, fold, s, r, body[..|body| - |s|], s[1..][..|s| - 1 - |r|]);
  }

  lemma HeadCut(body: string, title: string, fold: Fold, s: string, r: string, ws: string, gap: string)
    requires body == ws + s && s != "" && s[0] == '#' && s[1..] == gap + r && |r| < |s| - 1 && Blank(ws) && Blank(gap)
    requires title != "" && SamePrefix(r, title, fold) && !IsSpace(r[0])
    ensures HeadedBy(body, title, fold, ws, gap, r[..|title|], r[|title|..])
  {
    hide IsSpace, Blank;
    var head := r[..|title|];
    assert r == head + r[|title|..];
    assert s == "#" + s[1..];
    HeadSpelled(ws, gap, head, r[|title|..]);
  }

  lemma RestBreaks(rest: string)
    requires BreaksLine(rest) || TrimStart(rest) == ""
    ensures BreaksLine(rest + "\n")
  {
    hide IsSpace, Blank, BreaksLine, TrimStart;
    if TrimStart(rest) == "" {
      StartParts(rest);
      assert rest[..|rest|] == rest;
      BlankTexts();
      BlankJoin(rest, "\n");
      RunBreaks(rest + "\n", "");
      assert rest + "\n" + "" == rest + "\n";
    } else {
      BreakStays(rest);
    }
  }

  lemma BreakStays(rest: string)
    requires BreaksLine(rest) && TrimStart(rest) != ""
    ensures BreaksLine(rest + "\n")
  {
    TrimStartLonger(rest, "\n");
    hide IsSpace, TrimStart;
    var i :| 0 <= i < |rest| - |TrimStart(rest)| && rest[i] == '\n';
    assert (rest + "\n")[i] == '\n';
  }

  /**
   The body reads back, trimmed, if and only if it does not already start with the title as a heading of its own and
   holds no CR LF pair inside.
   */
  lemma BodyReadsBackIff(f: Fields, json: Codec, fold: Fold, fileTitle: string)
    requires Printable(f, json) && Trim(f.title) != ""
    requires Seqs.Distinct(f.names) && forall n :: n in f.names ==> Trim(n) != ""
    ensures ParseNote(PrintNote(f, json, fold), fileTitle, json, fold).body == Trim(f.body)
      <==> !HasHeading(Trim(f.body), f.title, fold) && !HasPair(Trim(f.body))
  {
    FieldsReadBack(f, json, fold, fileTitle);
    assert OneLine(f.title);
    hide *;
    if HasHeading(Trim(f.body), f.title, fold) {
      OwnHeadingIsLost(f, fold);
    } else {
      NormalizeLength(Trim(f.body));
      if Trim(f.body) == "" {
        EmptyBodyReadsBack(f, fold);
        EmptyNormal();
      } else {
        TextBodyReadsBack(f, fold);
      }
    }
  }
}
