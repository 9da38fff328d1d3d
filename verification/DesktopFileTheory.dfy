/** The service-file format of bus/desktop-file.c: what a text means, and that a
    printed file reads back.  A byte of the text is a `char`. */
module DesktopFileTheory {
  import opened Collections

  datatype Error = InvalidSyntax | InvalidEscapes | InvalidChars | KeyBeforeSection

  datatype Line = Line(key: string, value: string)

  datatype Section = Section(name: string, lines: seq<Line>)

  const NUL: char := '\0'

  /** The byte at a position; a NUL follows the last one. */
  function ByteAt(data: string, p: nat): char {
    if p < |data| then data[p] else NUL
  }

  /** _dbus_string_find_eol: where the line ends, and how long its end is. */
  function FindEol(data: string, p: nat): (r: (nat, nat))
    requires p <= |data|
    ensures p <= r.0 && r.0 + r.1 <= |data| && (r.1 == 0 <==> r.0 == |data|)
    decreases |data| - p
  {
    if p == |data| then (p, 0)
    else if data[p] == '\r' && ByteAt(data, p + 1) == '\n' then (p, 2)
    else if data[p] == '\r' || data[p] == '\n' then (p, 1)
    else FindEol(data, p + 1)
  }

  function LineEnd(data: string, p: nat): nat
    requires p <= |data|
  {
    FindEol(data, p).0
  }

  /** The position every step leaves behind: the start of the next line. */
  function NextLine(data: string, p: nat): (r: nat)
    requires p <= |data|
    ensures p <= r <= |data| && (p < |data| ==> p < r)
  {
    FindEol(data, p).0 + FindEol(data, p).1
  }

  predicate IsBlankChar(c: char) {
    c == ' ' || c == '\t' || c == '\n' || c == '\r' || c == '\U{000C}'
  }

  /** is_blank_line */
  predicate IsBlankLine(data: string, p: nat)
    decreases |data| - p
  {
    if ByteAt(data, p) == NUL || ByteAt(data, p) == '\n' then true
    else IsBlankChar(data[p]) && IsBlankLine(data, p + 1)
  }

  /** The bytes with the VALID_KEY_CHAR flag. */
  predicate IsKeyChar(c: char) {
    'a' <= c <= 'z' || 'A' <= c <= 'Z' || '0' <= c <= '9' || c == '-'
  }

  function SkipKeyChars(data: string, p: nat, end: nat): (r: nat)
    requires p <= end <= |data|
    ensures p <= r <= end && (forall i :: p <= i < r ==> IsKeyChar(data[i])) && (r < end ==> !IsKeyChar(data[r]))
    decreases end - p
  {
    if p < end && IsKeyChar(data[p]) then SkipKeyChars(data, p + 1, end) else p
  }

  function SkipSpaces(data: string, p: nat, end: nat): (r: nat)
    requires p <= end <= |data|
    ensures p <= r <= end && (forall i :: p <= i < r ==> data[i] == ' ') && (r < end ==> data[r] != ' ')
    decreases end - p
  {
    if p < end && data[p] == ' ' then SkipSpaces(data, p + 1, end) else p
  }

  /** The character an escape code stands for. */
  function Code(c: char): Option<char> {
    if c == 's' then Some(' ')
    else if c == 't' then Some('\t')
    else if c == 'n' then Some('\n')
    else if c == 'r' then Some('\r')
    else if c == '\\' then Some('\\')
    else None
  }

  /** unescape_string */
  function Unescape(text: string): Result<string, Error> {
    if text == "" then Ok("")
    else if text[0] == NUL then Err(InvalidEscapes)
    else if text[0] != '\\' then
      match Unescape(text[1..])
      case Err(e) => Err(e)
      case Ok(rest) => Ok([text[0]] + rest)
    else if |text| == 1 || Code(text[1]) == None then Err(InvalidEscapes)
    else
      match Unescape(text[2..])
      case Err(e) => Err(e)
      case Ok(rest) => Ok([Code(text[1]).value] + rest)
  }

  /** is_valid_section_name; the bounds for lower-case letters are joined by "or". */
  predicate IsNameChar(c: char) {
    ('A' <= c && c <= 'Z') || (c >= 'a' || c <= 'z') || c == '\n' || c == '\t'
  }

  predicate IsValidSectionName(name: string) {
    forall i :: 0 <= i < |name| ==> IsNameChar(name[i])
  }

  /** So the check lets every name pass, although the comment above it says that
      control characters and brackets are excluded. */
  lemma EveryNameIsValid(name: string)
    ensures IsValidSectionName(name)
  {
  }

  /** parse_section_start */
  function SectionAt(data: string, p: nat): Result<Section, Error>
    requires p < |data|
  {
    var end := LineEnd(data, p);
    if end - p <= 2 || data[end - 1] != ']' then Err(InvalidSyntax)
    else
      match Unescape(data[p + 1..end - 1])
      case Err(e) => Err(e)
      case Ok(name) => if IsValidSectionName(name) then Ok(Section(name, [])) else Err(InvalidChars)
  }

  /** parse_key_value; None for a line with a locale, which is passed over. */
  function LineAt(data: string, p: nat): Result<Option<Line>, Error>
    requires p < |data|
  {
    var end := LineEnd(data, p);
    var keyEnd := SkipKeyChars(data, p, end);
    if keyEnd == p then Err(InvalidSyntax)
    else if keyEnd < end && data[keyEnd] == '[' then Ok(None)
    else
      var equals := SkipSpaces(data, keyEnd, end);
      if equals == end then Err(InvalidSyntax)
      else if data[equals] != '=' then Err(InvalidChars)
      else
        match Unescape(data[SkipSpaces(data, equals + 1, end)..end])
        case Err(e) => Err(e)
        case Ok(value) => Ok(Some(Line(data[p..keyEnd], value)))
  }

  /** The line goes to the last section. */
  function AddLine(sections: seq<Section>, line: Line): seq<Section>
    requires sections != []
  {
    var last := sections[|sections| - 1];
    sections[..|sections| - 1] + [last.(lines := last.lines + [line])]
  }

  /** One turn of the loop of bus_desktop_file_load. */
  function Step(data: string, p: nat, sections: seq<Section>): Result<seq<Section>, Error>
    requires p < |data|
  {
    if data[p] == '[' then
      match SectionAt(data, p)
      case Err(e) => Err(e)
      case Ok(section) => Ok(sections + [section])
    else if IsBlankLine(data, p) || data[p] == '#' then Ok(sections)
    else if sections == [] then Err(KeyBeforeSection)
    else
      match LineAt(data, p)
      case Err(e) => Err(e)
      case Ok(None) => Ok(sections)
      case Ok(Some(line)) => Ok(AddLine(sections, line))
  }

  /** Every step that does not fail moves on by a line, so this ends on every input. */
  function ParseFrom(data: string, p: nat, sections: seq<Section>): Result<seq<Section>, Error>
    requires p <= |data|
    decreases |data| - p
  {
    if p == |data| then Ok(sections)
    else
      match Step(data, p, sections)
      case Err(e) => Err(e)
      case Ok(more) => ParseFrom(data, NextLine(data, p), more)
  }

  function Parse(data: string): Result<seq<Section>, Error> {
    ParseFrom(data, 0, [])
  }

  // ---- printing ---------------------------------------------------------------------------

  function EscapeChar(c: char): string {
    if c == ' ' then "\\s"
    else if c == '\t' then "\\t"
    else if c == '\n' then "\\n"
    else if c == '\r' then "\\r"
    else if c == '\\' then "\\\\"
    else [c]
  }

  /** The inverse of unescape_string. */
  function Escape(text: string): string {
    if text == "" then "" else EscapeChar(text[0]) + Escape(text[1..])
  }

  /** The layout of dump_desktop_file. */
  function PrintLine(line: Line): string {
    line.key + "=" + Escape(line.value)
  }

  function PrintLines(lines: seq<Line>): string {
    if lines == [] then "" else PrintLine(lines[0]) + "\n" + PrintLines(lines[1..])
  }

  function PrintHeader(name: string): string {
    "[" + Escape(name) + "]"
  }

  function Print(sections: seq<Section>): string {
    if sections == [] then ""
    else PrintHeader(sections[0].name) + "\n" + PrintLines(sections[0].lines) + Print(sections[1..])
  }

  // ---- what can be printed --------------------------------------------------------------------

  predicate NoNul(text: string) {
    forall i :: 0 <= i < |text| ==> text[i] != NUL
  }

  predicate IsKey(key: string) {
    key != "" && forall i :: 0 <= i < |key| ==> IsKeyChar(key[i])
  }

  predicate LineOk(line: Line) {
    IsKey(line.key) && NoNul(line.value)
  }

  predicate SectionOk(s: Section) {
    s.name != "" && NoNul(s.name) && forall i :: 0 <= i < |s.lines| ==> LineOk(s.lines[i])
  }

  predicate Printable(sections: seq<Section>) {
    forall i :: 0 <= i < |sections| ==> SectionOk(sections[i])
  }

  // ---- reading back -------------------------------------------------------------------------

  lemma EscapedCode(c: char)
    ensures if |EscapeChar(c)| == 1 then EscapeChar(c) == [c] && c != '\\'
            else |EscapeChar(c)| == 2 && EscapeChar(c)[0] == '\\' && Code(EscapeChar(c)[1]) == Some(c)
  {
  }

  lemma UnescapeOne(c: char, rest: string)
    requires c != NUL && Unescape(rest).Ok?
    ensures Unescape(EscapeChar(c) + rest) == Ok([c] + Unescape(rest).value)
  {
    EscapedCode(c);
    hide EscapeChar, Code;
    var text := EscapeChar(c) + rest;
    if |EscapeChar(c)| == 1 {
      assert text[1..] == rest;
    } else {
      assert text[2..] == rest;
    }
  }

  lemma {:induction false} UnescapeEscape(text: string)
    requires NoNul(text)
    ensures Unescape(Escape(text)) == Ok(text)
  {
    if text != "" {
      UnescapeEscape(text[1..]);
      UnescapeOne(text[0], Escape(text[1..]));
      assert [text[0]] + text[1..] == text;
    }
  }

  /** Escaped text is free of line ends, NULs and spaces. */
  predicate IsPlain(text: string) {
    forall i :: 0 <= i < |text| ==> text[i] != '\n' && text[i] != '\r' && text[i] != NUL && text[i] != ' '
  }

  lemma {:induction false} EscapedIsPlain(text: string)
    requires NoNul(text)
    ensures IsPlain(Escape(text)) && (text != "" ==> Escape(text) != "")
  {
    if text != "" {
      EscapedIsPlain(text[1..]);
    }
  }

  lemma {:induction false} EolOfLine(pre: string, line: string, rest: string, p: nat)
    requires |pre| <= p <= |pre| + |line|
    requires forall i :: 0 <= i < |line| ==> line[i] != '\n' && line[i] != '\r'
    ensures FindEol(pre + line + "\n" + rest, p) == (|pre| + |line|, 1)
    decreases |pre| + |line| - p
  {
    var data := pre + line + "\n" + rest;
    if p < |pre| + |line| {
      assert data[p] == line[p - |pre|];
      EolOfLine(pre, line, rest, p + 1);
    } else {
      assert data[p] == '\n';
    }
  }

  lemma ReadsHeader(pre: string, name: string, rest: string, sections: seq<Section>)
    requires name != "" && NoNul(name)
    ensures var data := pre + PrintHeader(name) + "\n" + rest;
      Step(data, |pre|, sections) == Ok(sections + [Section(name, [])]) &&
        NextLine(data, |pre|) == |pre| + |PrintHeader(name)| + 1
  {
    var line := PrintHeader(name);
    var data := pre + line + "\n" + rest;
    EscapedIsPlain(name);
    UnescapeEscape(name);
    EveryNameIsValid(name);
    EolOfLine(pre, line, rest, |pre|);
    PartsOfHeader(pre, Escape(name), rest);
    hide Escape, Unescape, FindEol, IsValidSectionName, IsPlain;
  }

  lemma PartsOfHeader(pre: string, name: string, rest: string)
    ensures var data, p := pre + ("[" + name + "]") + "\n" + rest, |pre|;
      && |data| > p + |name| + 2 && data[p] == '[' && data[p + |name| + 1] == ']'
      && data[p + 1..p + |name| + 1] == name
  {
  }

  lemma {:induction false} SkipsWholeKey(data: string, p: nat, keyEnd: nat, end: nat)
    requires p <= keyEnd < end <= |data| && !IsKeyChar(data[keyEnd])
    requires forall i :: p <= i < keyEnd ==> IsKeyChar(data[i])
    ensures SkipKeyChars(data, p, end) == keyEnd
    decreases keyEnd - p
  {
    if p < keyEnd {
      SkipsWholeKey(data, p + 1, keyEnd, end);
    }
  }

  lemma LineAtIs(data: string, p: nat, line: Line, end: nat)
    requires LineOk(line) && p < end == p + |line.key| + 1 + |Escape(line.value)| <= |data| && LineEnd(data, p) == end
    requires data[p..p + |line.key|] == line.key && data[p + |line.key|] == '=' &&
      data[p + |line.key| + 1..end] == Escape(line.value)
    ensures LineAt(data, p) == Ok(Some(line))
  {
    KeyIsSkipped(data, p, line, end);
    UnescapeEscape(line.value);
    hide Escape, Unescape, LineEnd, SkipKeyChars, SkipSpaces, LineOk;
  }

  lemma KeyIsSkipped(data: string, p: nat, line: Line, end: nat)
    requires LineOk(line) && p < end == p + |line.key| + 1 + |Escape(line.value)| <= |data|
    requires data[p..p + |line.key|] == line.key && data[p + |line.key|] == '=' &&
      data[p + |line.key| + 1..end] == Escape(line.value)
    ensures var keyEnd := p + |line.key|;
      p < keyEnd == SkipKeyChars(data, p, end) == SkipSpaces(data, keyEnd, end) &&
        SkipSpaces(data, keyEnd + 1, end) == keyEnd + 1
  {
    var keyEnd := p + |line.key|;
    EscapedIsPlain(line.value);
    forall i | p <= i < keyEnd
      ensures IsKeyChar(data[i])
    {
      assert data[i] == data[p..keyEnd][i - p];
    }
    SkipsWholeKey(data, p, keyEnd, end);
    assert keyEnd + 1 < end ==> data[keyEnd + 1] == data[keyEnd + 1..end][0];
    hide Escape;
  }

  lemma ReadsLine(pre: string, line: Line, rest: string, sections: seq<Section>)
    requires LineOk(line) && sections != []
    ensures var data := pre + PrintLine(line) + "\n" + rest;
      Step(data, |pre|, sections) == Ok(AddLine(sections, line)) &&
        NextLine(data, |pre|) == |pre| + |PrintLine(line)| + 1
  {
    var text := PrintLine(line);
    var data := pre + text + "\n" + rest;
    EscapedIsPlain(line.value);
    EolOfLine(pre, text, rest, |pre|);
    PartsOfLine(pre, line.key, Escape(line.value), rest);
    hide Escape, LineAt, FindEol, EscapeChar, IsPlain;
    LineAtIs(data, |pre|, line, |pre| + |text|);
    StepOnKey(data, |pre|, sections);
  }

  lemma PartsOfLine(pre: string, key: string, value: string, rest: string)
    ensures var data, p := pre + (key + "=" + value) + "\n" + rest, |pre|;
      && |data| > p + |key| + 1 + |value|
      && data[p..p + |key|] == key && data[p + |key|] == '=' && data[p + |key| + 1..p + |key| + 1 + |value|] == value
      && (key != "" ==> data[p] == key[0])
  {
  }

  /** A line that starts with a key character is neither header, comment nor blank. */
  lemma StepOnKey(data: string, p: nat, sections: seq<Section>)
    requires p < |data| && IsKeyChar(data[p]) && sections != []
    ensures Step(data, p, sections) ==
      match LineAt(data, p)
      case Err(e) => Err(e)
      case Ok(None) => Ok(sections)
      case Ok(Some(line)) => Ok(AddLine(sections, line))
  {
    hide LineAt, AddLine;
  }

  /** One turn of the loop. */
  lemma ParseOnce(data: string, p: nat, sections: seq<Section>, more: seq<Section>, next: nat)
    requires p < |data| && Step(data, p, sections) == Ok(more) && NextLine(data, p) == next
    ensures ParseFrom(data, p, sections) == ParseFrom(data, next, more)
  {
  }

  lemma {:induction false} ReadsLines(pre: string, lines: seq<Line>, rest: string, sections: seq<Section>,
                                      name: string, before: seq<Line>)
    requires forall i :: 0 <= i < |lines| ==> LineOk(lines[i])
    ensures var data := pre + PrintLines(lines) + rest;
      ParseFrom(data, |pre|, sections + [Section(name, before)]) ==
      ParseFrom(data, |pre| + |PrintLines(lines)|, sections + [Section(name, before + lines)])
    decreases |lines|
  {
    hide Step, NextLine, PrintLine, LineOk, ParseFrom;
    var data := pre + PrintLines(lines) + rest;
    if lines == [] {
      assert before + lines == before;
    } else {
      var text, more := PrintLine(lines[0]), PrintLines(lines[1..]);
      var current, longer := sections + [Section(name, before)], sections + [Section(name, before + [lines[0]])];
      assert data == pre + text + "\n" + (more + rest);
      ReadsLine(pre, lines[0], more + rest, current);
      assert AddLine(current, lines[0]) == longer;
      ParseOnce(data, |pre|, current, longer, |pre| + |text| + 1);
      ReadsLines(pre + text + "\n", lines[1..], rest, sections, name, before + [lines[0]]);
      assert data == (pre + text + "\n") + more + rest;
      assert before + lines == before + [lines[0]] + lines[1..];
    }
  }

  /** A printed file reads back section by section, line by line. */
  lemma {:induction false} ReadsBack(pre: string, sections: seq<Section>, before: seq<Section>)
    requires Printable(sections)
    ensures ParseFrom(pre + Print(sections), |pre|, before) == Ok(before + sections)
    decreases |sections|
  {
    hide ParseFrom, PrintHeader, PrintLines, SectionOk;
    var data := pre + Print(sections);
    if sections == [] {
      assert before + sections == before;
      ParseAtEnd(data, before);
    } else {
      var s, rest := sections[0], Print(sections[1..]);
      var next := pre + PrintHeader(s.name) + "\n" + PrintLines(s.lines);
      ReadsSection(pre, s, rest, before);
      assert data == next + rest;
      ReadsBack(next, sections[1..], before + [s]);
      assert before + sections == before + [s] + sections[1..];
    }
  }

  lemma ParseAtEnd(data: string, sections: seq<Section>)
    ensures ParseFrom(data, |data|, sections) == Ok(sections)
  {
  }

  lemma ReadsSection(pre: string, s: Section, rest: string, before: seq<Section>)
    requires SectionOk(s)
    ensures var data := pre + PrintHeader(s.name) + "\n" + PrintLines(s.lines) + rest;
      ParseFrom(data, |pre|, before) ==
        ParseFrom(data, |pre + PrintHeader(s.name) + "\n" + PrintLines(s.lines)|, before + [s])
  {
    hide Step, NextLine, PrintHeader, ParseFrom, PrintLines;
    var header, lines := PrintHeader(s.name), PrintLines(s.lines);
    var data := pre + header + "\n" + lines + rest;
    assert data == pre + header + "\n" + (lines + rest);
    ReadsHeader(pre, s.name, lines + rest, before);
    ParseOnce(data, |pre|, before, before + [Section(s.name, [])], |pre| + |header| + 1);
    assert data == (pre + header + "\n") + lines + rest;
    ReadsLines(pre + header + "\n", s.lines, rest, before, s.name, []);
    assert [] + s.lines == s.lines && Section(s.name, s.lines) == s;
  }

  lemma NothingBefore(text: string, sections: seq<Section>)
    ensures "" + text == text && [] + sections == sections
  {
  }

  lemma RoundTrip(sections: seq<Section>)
    requires Printable(sections)
    ensures Parse(Print(sections)) == Ok(sections)
  {
    hide Print, ParseFrom, Printable;
    ReadsBack("", sections, []);
    NothingBefore(Print(sections), sections);
  }

  // ---- whatever is read can be printed ------------------------------------------------------------

  lemma {:induction false} UnescapedIsClean(text: string)
    requires Unescape(text).Ok?
    ensures NoNul(Unescape(text).value) && (text != "" ==> Unescape(text).value != "")
  {
    if text != "" {
      if text[0] != '\\' {
        UnescapedIsClean(text[1..]);
      } else {
        UnescapedIsClean(text[2..]);
      }
    }
  }

  lemma StepIsPrintable(data: string, p: nat, sections: seq<Section>)
    requires p < |data| && Printable(sections)
    ensures var r := Step(data, p, sections); r.Ok? ==> Printable(r.value)
  {
    if data[p] == '[' {
      if SectionAt(data, p).Ok? {
        SectionIsOk(data, p);
      }
    } else if sections != [] {
      var line := LineAt(data, p);
      if line.Ok? && line.value.Some? {
        LineIsOk(data, p);
        AddedIsPrintable(sections, line.value.value);
      }
    }
    hide SectionAt, LineAt, LineOk, AddLine;
  }

  lemma SectionIsOk(data: string, p: nat)
    requires p < |data| && SectionAt(data, p).Ok?
    ensures SectionOk(SectionAt(data, p).value)
  {
    var end := LineEnd(data, p);
    UnescapedIsClean(data[p + 1..end - 1]);
    hide LineEnd, Unescape;
  }

  lemma LineIsOk(data: string, p: nat)
    requires p < |data| && LineAt(data, p).Ok? && LineAt(data, p).value.Some?
    ensures LineOk(LineAt(data, p).value.value)
  {
    var end := LineEnd(data, p);
    var keyEnd := SkipKeyChars(data, p, end);
    UnescapedIsClean(data[SkipSpaces(data, SkipSpaces(data, keyEnd, end) + 1, end)..end]);
    hide LineEnd, Unescape;
  }

  lemma AddedIsPrintable(sections: seq<Section>, line: Line)
    requires Printable(sections) && sections != [] && LineOk(line)
    ensures Printable(AddLine(sections, line))
  {
    assert SectionOk(sections[|sections| - 1]);
  }

  lemma {:induction false} ParsedIsPrintable(data: string, p: nat, sections: seq<Section>)
    requires p <= |data| && Printable(sections)
    ensures var r := ParseFrom(data, p, sections); r.Ok? ==> Printable(r.value)
    decreases |data| - p
  {
    hide Step, Printable;
    if p < |data| {
      StepIsPrintable(data, p, sections);
      var r := Step(data, p, sections);
      if r.Ok? {
        ParsedIsPrintable(data, NextLine(data, p), r.value);
      }
    }
  }

  /** Exactly the printable lists of sections can be read from some text, and
      printing what was read gives a text that means the same. */
  lemma PrintableExactly(sections: seq<Section>)
    ensures Printable(sections) <==> exists data :: Parse(data) == Ok(sections)
    ensures Printable(sections) ==> Parse(Print(sections)) == Ok(sections)
  {
    if Printable(sections) {
      RoundTrip(sections);
    }
    forall data | Parse(data) == Ok(sections)
      ensures Printable(sections)
    {
      ParsedIsPrintable(data, 0, []);
    }
  }
}
