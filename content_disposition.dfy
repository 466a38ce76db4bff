/**
 * The Content-Disposition filename extraction of the upload handler.
 *
 * The handler matches the header value against the JavaScript regular
 * expression  ^attachment;\s*filename="(?<filename>.*)"$  (no flags) and
 * takes the named group. This module writes that match as a deterministic
 * parser, `ParseFilename`, and gives an independent description of the
 * strings the expression accepts, `Describes`; the two are proved to agree.
 */
module ContentDisposition {
  import opened Wrappers

  const AttachmentPrefix: string := "attachment;"
  const FilenameOpen: string := "filename=\""
  const Quote: char := '"'

  /** `\s` of a JavaScript regular expression: ECMAScript WhiteSpace
      (TAB, VT, FF, ZWNBSP and every Unicode space separator) and
      LineTerminator (LF, CR, LS, PS). */
  predicate IsRegexSpace(c: char) {
    || c == '\t' || c == '\n' || c == '\U{000B}' || c == '\U{000C}' || c == '\r'
    || c == ' ' || c == '\U{00A0}' || c == '\U{1680}'
    || ('\U{2000}' <= c <= '\U{200A}')
    || c == '\U{2028}' || c == '\U{2029}' || c == '\U{202F}' || c == '\U{205F}'
    || c == '\U{3000}' || c == '\U{FEFF}'
  }

  /** The characters `.` does not match without the `s` flag. */
  predicate IsLineTerminator(c: char) {
    c == '\n' || c == '\r' || c == '\U{2028}' || c == '\U{2029}'
  }

  /** Where the `\s` set ends: the no-break and zero-width no-break
      spaces belong to it; NEL, the Mongolian vowel separator and the
      zero-width space do not. */
  lemma RegexSpaceEdges()
    ensures IsRegexSpace('\U{00A0}') && IsRegexSpace('\U{FEFF}')
    ensures IsRegexSpace('\U{000B}') && IsRegexSpace('\n')
    ensures !IsRegexSpace('\U{0085}') && !IsRegexSpace('\U{180E}')
    ensures !IsRegexSpace('\U{200B}') && !IsRegexSpace('f')
  {
  }

  /** Where the line terminators end: NEL, TAB and VT are matched by `.`. */
  lemma LineTerminatorEdges()
    ensures IsLineTerminator('\U{2028}') && IsLineTerminator('\r')
    ensures !IsLineTerminator('\U{0085}') && !IsLineTerminator('\t')
    ensures !IsLineTerminator('\U{000B}')
  {
  }

  /** A string `\s*` matches entirely. */
  predicate AllSpace(ws: string) {
    forall i :: 0 <= i < |ws| ==> IsRegexSpace(ws[i])
  }

  /** A string `.*` matches entirely. */
  predicate SingleLine(s: string) {
    forall i :: 0 <= i < |s| ==> !IsLineTerminator(s[i])
  }

  /** The header value built from a whitespace run and a filename. */
  function Header(ws: string, name: string): string {
    AttachmentPrefix + ws + FilenameOpen + name + [Quote]
  }

  /** Reference semantics of the regular expression: `v` matches it with
      `name` as the captured filename. */
  ghost predicate Describes(v: string, name: string) {
    exists ws :: AllSpace(ws) && SingleLine(name) && v == Header(ws, name)
  }

  /** Length of the longest prefix of `s` that `\s*` matches. */
  function SpaceRun(s: string): (n: nat)
    ensures n <= |s|
    ensures AllSpace(s[..n])
    ensures n < |s| ==> !IsRegexSpace(s[n])
  {
    if |s| > 0 && IsRegexSpace(s[0]) then
      var m := SpaceRun(s[1..]);
      assert s[..m + 1] == [s[0]] + s[1..][..m];
      1 + m
    else
      0
  }

  /** The filename captured from a Content-Disposition value, or None when
      the value does not match (index.js lines 39-41). */
  function ParseFilename(v: string): (r: Option<string>)
    ensures r.Some? ==> SingleLine(r.value) && |r.value| + |AttachmentPrefix| + |FilenameOpen| + 1 <= |v|
  {
    if !(AttachmentPrefix <= v) then None
    else
      var rest := v[|AttachmentPrefix|..];
      var tail := rest[SpaceRun(rest)..];
      if !(FilenameOpen <= tail) then None
      else
        var quoted := tail[|FilenameOpen|..];
        if |quoted| == 0 || quoted[|quoted| - 1] != Quote then None
        else
          var name := quoted[..|quoted| - 1];
          if SingleLine(name) then Some(name) else None
  }

  /** A whitespace run followed by a non-whitespace character is exactly
      what `SpaceRun` measures. */
  lemma {:induction false} SpaceRunStops(ws: string, t: string)
    requires AllSpace(ws)
    requires |t| > 0 && !IsRegexSpace(t[0])
    ensures SpaceRun(ws + t) == |ws|
  {
    if ws == [] {
      assert ws + t == t;
    } else {
      assert (ws + t)[1..] == ws[1..] + t;
      SpaceRunStops(ws[1..], t);
    }
  }

  /** Round trip: every value of the accepted shape yields its filename;
      the same shape around a name with a line break is refused. */
  lemma ParseHeader(ws: string, name: string)
    requires AllSpace(ws)
    ensures SingleLine(name) ==> ParseFilename(Header(ws, name)) == Some(name)
    ensures !SingleLine(name) ==> ParseFilename(Header(ws, name)) == None
  {
    var v := Header(ws, name);
    var after := FilenameOpen + name + [Quote];
    assert v == AttachmentPrefix + (ws + after);
    assert AttachmentPrefix <= v;
    var rest := v[|AttachmentPrefix|..];
    assert rest == ws + after;
    SpaceRunStops(ws, after);
    var tail := rest[|ws|..];
    assert tail == after;
    assert FilenameOpen <= tail;
    var quoted := tail[|FilenameOpen|..];
    assert quoted == name + [Quote];
    assert quoted[..|quoted| - 1] == name;
  }

  /** Soundness: a value the parser accepts has the accepted shape, with
      the parsed filename in it. */
  lemma ParseSound(v: string) returns (ws: string)
    requires ParseFilename(v).Some?
    ensures AllSpace(ws) && SingleLine(ParseFilename(v).value)
    ensures v == Header(ws, ParseFilename(v).value)
  {
    assert AttachmentPrefix <= v;
    var rest := v[|AttachmentPrefix|..];
    var n := SpaceRun(rest);
    ws := rest[..n];
    var tail := rest[n..];
    assert FilenameOpen <= tail;
    var quoted := tail[|FilenameOpen|..];
    assert |quoted| > 0 && quoted[|quoted| - 1] == Quote;
    var name := quoted[..|quoted| - 1];
    assert ParseFilename(v) == Some(name);
    calc {
      v;
      AttachmentPrefix + rest;
      AttachmentPrefix + (ws + tail);
      AttachmentPrefix + (ws + (FilenameOpen + quoted));
      AttachmentPrefix + (ws + (FilenameOpen + (name + [Quote])));
      Header(ws, name);
    }
  }

  /** The parser agrees with the regular expression in both directions. */
  lemma ParseFilenameMeaning(v: string, name: string)
    ensures ParseFilename(v) == Some(name) <==> Describes(v, name)
  {
    if ParseFilename(v) == Some(name) {
      var ws := ParseSound(v);
    }
    if Describes(v, name) {
      var ws :| AllSpace(ws) && SingleLine(name) && v == Header(ws, name);
      ParseHeader(ws, name);
    }
  }

  /** Any value not of the accepted shape fails to parse. */
  lemma ParseRejects(v: string)
    requires forall ws, name :: AllSpace(ws) && SingleLine(name) ==> v != Header(ws, name)
    ensures ParseFilename(v) == None
  {
    if ParseFilename(v).Some? {
      var ws := ParseSound(v);
    }
  }

  /** The captured filename is unique: the greedy `.*` and the maximal
      `\s*` leave no choice. */
  lemma DescribesUnique(v: string, a: string, b: string)
    requires Describes(v, a) && Describes(v, b)
    ensures a == b
  {
    ParseFilenameMeaning(v, a);
    ParseFilenameMeaning(v, b);
  }

  /** Every value the parser accepts starts with "attachment;" and ends
      with a double quote. */
  lemma ParsedFraming(v: string)
    requires ParseFilename(v).Some?
    ensures AttachmentPrefix <= v
    ensures |v| > 0 && v[|v| - 1] == Quote
  {
    var ws := ParseSound(v);
  }

  /** No whitespace, and a quote inside the name: accepted. */
  lemma AcceptsTightQuotedName()
    ensures ParseFilename("attachment;filename=\"a\"b.png\"") == Some("a\"b.png")
  {
    assert Header("", "a\"b.png") == "attachment;filename=\"a\"b.png\"";
    ParseHeader("", "a\"b.png");
  }

  /** A line break in the whitespace run: accepted, since `\s` matches it. */
  lemma AcceptsLineBreakBeforeFilename()
    ensures ParseFilename("attachment;\r\n filename=\"cat.png\"") == Some("cat.png")
  {
    assert AllSpace("\r\n ");
    assert Header("\r\n ", "cat.png") == "attachment;\r\n filename=\"cat.png\"";
    ParseHeader("\r\n ", "cat.png");
  }

  /** The empty name is captured as "" (the handler then refuses it). */
  lemma AcceptsEmptyName()
    ensures ParseFilename("attachment; filename=\"\"") == Some("")
  {
    assert AllSpace(" ");
    assert Header(" ", "") == "attachment; filename=\"\"";
    ParseHeader(" ", "");
  }

  /** "Attachment" in another case: refused. */
  lemma RefusesWrongCase()
    ensures ParseFilename("Attachment; filename=\"cat.png\"") == None
  {
    var v := "Attachment; filename=\"cat.png\"";
    assert v[0] != AttachmentPrefix[0];
    assert !(AttachmentPrefix <= v);
  }

  /** No closing quote: refused. */
  lemma RefusesMissingClosingQuote()
    ensures ParseFilename("attachment; filename=\"cat.png") == None
  {
    var v := "attachment; filename=\"cat.png";
    if ParseFilename(v).Some? {
      ParsedFraming(v);
    }
  }

  /** Characters after the closing quote: refused. */
  lemma RefusesTrailingCharacters()
    ensures ParseFilename("attachment; filename=\"cat.png\" ") == None
  {
    var v := "attachment; filename=\"cat.png\" ";
    if ParseFilename(v).Some? {
      ParsedFraming(v);
    }
  }

  /** A line break inside the name: refused, since `.` does not match it. */
  lemma RefusesLineBreakInName()
    ensures ParseFilename("attachment; filename=\"cat\n.png\"") == None
  {
    var v := "attachment; filename=\"cat\n.png\"";
    assert AllSpace(" ");
    assert Header(" ", "cat\n.png") == v;
    assert "cat\n.png"[3] == '\n';
    ParseHeader(" ", "cat\n.png");
  }
}
