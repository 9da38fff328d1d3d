/** What a line of a service file comes to (bus/desktop-file.c), said of the text of
    the line: which lines are headers, entries, comments or errors. */
module DesktopFileOutcome {
  import opened Collections
  import opened DesktopFileTheory

  // ---- escapes --------------------------------------------------------------------------------

  /** A piece of text that spells one character. */
  predicate Spells(piece: string, c: char) {
    || (piece == [c] && c != '\\' && c != NUL)
    || (piece == "\\s" && c == ' ') || (piece == "\\t" && c == '\t') || (piece == "\\n" && c == '\n')
    || (piece == "\\r" && c == '\r') || (piece == "\\\\" && c == '\\')
  }

  function Concat(pieces: seq<string>): string {
    if pieces == [] then "" else pieces[0] + Concat(pieces[1..])
  }

  predicate Spelled(pieces: seq<string>, u: string) {
    |pieces| == |u| && forall i :: 0 <= i < |u| ==> Spells(pieces[i], u[i])
  }

  lemma {:induction false} SpelledIsRead(pieces: seq<string>, u: string)
    requires Spelled(pieces, u)
    ensures Unescape(Concat(pieces)) == Ok(u)
    decreases |pieces|
  {
    if pieces != [] {
      SpelledIsRead(pieces[1..], u[1..]);
      assert Spells(pieces[0], u[0]);
      var text, rest := Concat(pieces), Concat(pieces[1..]);
      assert |pieces[0]| == 1 ==> text[1..] == rest;
      assert |pieces[0]| == 2 ==> text[2..] == rest;
      assert [u[0]] + u[1..] == u;
    }
  }

  lemma {:induction false} ReadIsSpelled(text: string) returns (pieces: seq<string>)
    requires Unescape(text).Ok?
    ensures Concat(pieces) == text && Spelled(pieces, Unescape(text).value)
    decreases |text|
  {
    if text == "" {
      pieces := [];
    } else {
      var n := if text[0] == '\\' then 2 else 1;
      var rest := ReadIsSpelled(text[n..]);
      pieces := [text[..n]] + rest;
      assert text[..n] + text[n..] == text;
      assert pieces[1..] == rest;
      var u := Unescape(text).value;
      assert u == [u[0]] + Unescape(text[n..]).value;
      assert Spells(text[..n], u[0]);
    }
  }

  /** A text is unescaped exactly if it is made of spellings; everything else is
      refused with the one error there is. */
  lemma UnescapedExactly(text: string, u: string)
    ensures Unescape(text) == Ok(u) <==> exists pieces :: Concat(pieces) == text && Spelled(pieces, u)
    ensures Unescape(text).Err? ==> Unescape(text) == Err(InvalidEscapes)
  {
    OneError(text);
    if Unescape(text) == Ok(u) {
      var pieces := ReadIsSpelled(text);
    }
    forall pieces | Concat(pieces) == text && Spelled(pieces, u)
      ensures Unescape(text) == Ok(u)
    {
      SpelledIsRead(pieces, u);
    }
  }

  lemma {:induction false} OneError(text: string)
    ensures Unescape(text).Err? ==> Unescape(text) == Err(InvalidEscapes)
    decreases |text|
  {
    if text != "" {
      OneError(text[1..]);
      if |text| > 1 {
        OneError(text[2..]);
      }
    }
  }

  // ---- lines ------------------------------------------------------------------------------------

  predicate IsEol(c: char) {
    c == '\n' || c == '\r'
  }

  /** The line ends before its first line end, which is "\r\n" or one character,
      or at the end of the text. */
  lemma {:induction false} LineOutcome(data: string, p: nat)
    requires p <= |data|
    ensures var (end, next) := (LineEnd(data, p), NextLine(data, p));
      && p <= end <= next <= |data| && (forall i :: p <= i < end ==> !IsEol(data[i]))
      && (end == |data| ==> next == end)
      && (end < |data| ==>
            IsEol(data[end]) &&
            next == if data[end] == '\r' && end + 1 < |data| && data[end + 1] == '\n' then end + 2 else end + 1)
    decreases |data| - p
  {
    if p < |data| && !IsEol(data[p]) {
      LineOutcome(data, p + 1);
    }
  }

  /** Nothing but blanks up to a newline, a NUL or the end of the text; a carriage
      return is a blank here. */
  predicate BlankUntil(data: string, p: int, e: int) {
    && 0 <= p <= e <= |data| && (e == |data| || data[e] == '\n' || data[e] == NUL)
    && forall i :: p <= i < e ==> data[i] in {' ', '\t', '\n', '\r', '\U{000C}'}
  }

  lemma {:induction false} BlankOutcome(data: string, p: nat)
    requires p <= |data|
    ensures IsBlankLine(data, p) <==> exists e :: BlankUntil(data, p, e)
    decreases |data| - p
  {
    if p == |data| || data[p] == NUL || data[p] == '\n' {
      assert BlankUntil(data, p, p);
    } else {
      BlankOutcome(data, p + 1);
      forall e | BlankUntil(data, p, e)
        ensures IsBlankLine(data, p)
      {
        assert data[p] in {' ', '\t', '\n', '\r', '\U{000C}'};
        assert BlankUntil(data, p + 1, e);
      }
      if IsBlankLine(data, p) {
        var e :| BlankUntil(data, p + 1, e);
        assert BlankUntil(data, p, e);
      }
    }
  }

  /** A header is a non-empty escaped name in brackets that end the line. */
  lemma HeaderOutcome(data: string, p: nat)
    requires p < |data|
    ensures var line := data[p..LineEnd(data, p)];
      match SectionAt(data, p)
      case Ok(section) =>
        |line| > 2 && line[|line| - 1] == ']' && section.lines == [] &&
          Unescape(line[1..|line| - 1]) == Ok(section.name)
      case Err(InvalidSyntax) => |line| <= 2 || line[|line| - 1] != ']'
      case Err(InvalidEscapes) => |line| > 2 && line[|line| - 1] == ']' && Unescape(line[1..|line| - 1]).Err?
      case Err(_) => false
  {
    var end := LineEnd(data, p);
    var line := data[p..end];
    if |line| > 2 {
      assert line[1..|line| - 1] == data[p + 1..end - 1];
      OneError(line[1..|line| - 1]);
      if Unescape(line[1..|line| - 1]).Ok? {
        EveryNameIsValid(Unescape(line[1..|line| - 1]).value);
      }
    }
    hide Unescape, IsValidSectionName, LineEnd;
  }

  predicate AllSpaces(s: string) {
    forall i :: 0 <= i < |s| ==> s[i] == ' '
  }

  /** Where the parts of a line lie. */
  lemma PartsAt(data: string, p: nat, key: string, gap: string, rest: string)
    requires p < |data| && IsKey(key) && AllSpaces(gap) && data[p..LineEnd(data, p)] == key + gap + rest
    requires rest == "" || (rest[0] != ' ' && (gap == "" ==> !IsKeyChar(rest[0])))
    ensures var end := LineEnd(data, p);
      var keyEnd := p + |key|;
      && keyEnd <= end && SkipKeyChars(data, p, end) == keyEnd && data[p..keyEnd] == key
      && SkipSpaces(data, keyEnd, end) == keyEnd + |gap| && end == keyEnd + |gap| + |rest|
      && data[keyEnd + |gap|..end] == rest
  {
    var end, keyEnd := LineEnd(data, p), p + |key|;
    var line := data[p..end];
    hide LineEnd;
    assert forall i :: p <= i < end ==> data[i] == line[i - p];
    assert line[..|key|] == key && line[|key|..|key| + |gap|] == gap && line[|key| + |gap|..] == rest;
    SkipsKey(data, p, keyEnd, end);
    SkipsGap(data, keyEnd, keyEnd + |gap|, end);
  }

  lemma {:induction false} SkipsKey(data: string, p: nat, keyEnd: nat, end: nat)
    requires p <= keyEnd <= end <= |data| && (keyEnd < end ==> !IsKeyChar(data[keyEnd]))
    requires forall i :: p <= i < keyEnd ==> IsKeyChar(data[i])
    ensures SkipKeyChars(data, p, end) == keyEnd
    decreases keyEnd - p
  {
    if p < keyEnd {
      SkipsKey(data, p + 1, keyEnd, end);
    }
  }

  lemma {:induction false} SkipsGap(data: string, p: nat, gapEnd: nat, end: nat)
    requires p <= gapEnd <= end <= |data| && (gapEnd < end ==> data[gapEnd] != ' ')
    requires forall i :: p <= i < gapEnd ==> data[i] == ' '
    ensures SkipSpaces(data, p, end) == gapEnd
    decreases gapEnd - p
  {
    if p < gapEnd {
      SkipsGap(data, p + 1, gapEnd, end);
    }
  }

  /** An entry is a key, an equals sign between spaces, and an escaped value. */
  lemma EntryOutcome(data: string, p: nat, key: string, gap: string, rest: string, space: string, value: string)
    requires p < |data| && IsKey(key) && AllSpaces(gap) && AllSpaces(space) && (value == "" || value[0] != ' ')
    requires data[p..LineEnd(data, p)] == key + gap + rest && rest == "=" + space + value
    ensures LineAt(data, p) ==
      match Unescape(value)
      case Ok(text) => Ok(Some(Line(key, text)))
      case Err(_) => Err(InvalidEscapes)
  {
    hide Unescape, AllSpaces;
    var end, equals := LineEnd(data, p), p + |key| + |gap|;
    LineOutcome(data, p);
    PartsAt(data, p, key, gap, rest);
    hide LineEnd, SkipKeyChars, SkipSpaces, IsKey, IsKeyChar, LineAt;
    ValueAt(data, equals, end, space, value);
    EntryAt(data, p, p + |key|, equals, equals + 1 + |space|);
  }

  lemma EntryAt(data: string, p: nat, keyEnd: nat, equals: nat, from: nat)
    requires p < |data| && p < keyEnd <= equals < from <= LineEnd(data, p)
    requires SkipKeyChars(data, p, LineEnd(data, p)) == keyEnd && SkipSpaces(data, keyEnd, LineEnd(data, p)) == equals
    requires data[equals] == '=' && SkipSpaces(data, equals + 1, LineEnd(data, p)) == from
    ensures LineAt(data, p) ==
      match Unescape(data[from..LineEnd(data, p)])
      case Ok(text) => Ok(Some(Line(data[p..keyEnd], text)))
      case Err(_) => Err(InvalidEscapes)
  {
    OneError(data[from..LineEnd(data, p)]);
    hide LineEnd, Unescape, SkipKeyChars;
  }

  lemma ValueAt(data: string, equals: nat, end: nat, space: string, value: string)
    requires equals < end <= |data| && data[equals..end] == "=" + space + value
    requires AllSpaces(space) && (value == "" || value[0] != ' ')
    ensures data[equals] == '=' && SkipSpaces(data, equals + 1, end) == equals + 1 + |space|
    ensures equals + 1 + |space| <= end && data[equals + 1 + |space|..end] == value
  {
    var rest := "=" + space + value;
    assert forall i :: equals <= i < end ==> data[i] == rest[i - equals];
    assert rest[1..1 + |space|] == space && rest[1 + |space|..] == value;
    SkipsGap(data, equals + 1, equals + 1 + |space|, end);
  }

  /** A key with a locale is passed over, whatever follows. */
  lemma LocaleOutcome(data: string, p: nat, key: string, rest: string)
    requires p < |data| && IsKey(key) && data[p..LineEnd(data, p)] == key + "" + ("[" + rest)
    ensures LineAt(data, p) == Ok(None)
  {
    PartsAt(data, p, key, "", "[" + rest);
    hide LineEnd, SkipKeyChars;
    assert data[p + |key|] == data[p + |key|..LineEnd(data, p)][0];
  }

  /** What is neither is an error: no key, nothing after the key and its spaces, or
      something other than an equals sign. */
  lemma BadLineOutcome(data: string, p: nat, key: string, gap: string, rest: string)
    requires p < |data| && data[p..LineEnd(data, p)] == key + gap + rest && AllSpaces(gap)
    requires forall i :: 0 <= i < |key| ==> IsKeyChar(key[i])
    requires rest == "" || (rest[0] != ' ' && (gap == "" ==> !IsKeyChar(rest[0])))
    ensures key == "" ==> LineAt(data, p) == Err(InvalidSyntax)
    ensures key != "" && rest == "" ==> LineAt(data, p) == Err(InvalidSyntax)
    ensures key != "" && rest != "" && rest[0] != '=' && !(gap == "" && rest[0] == '[') ==>
      LineAt(data, p) == Err(InvalidChars)
  {
    var end := LineEnd(data, p);
    if key == "" {
      var line := data[p..end];
      assert line != "" ==> data[p] == line[0];
      assert line == gap + rest;
    } else {
      PartsAt(data, p, key, gap, rest);
      hide LineEnd, SkipKeyChars, SkipSpaces;
      assert gap != "" ==> data[p + |key|] == data[p..end][|key|] == ' ';
      if rest != "" {
        assert data[p + |key| + |gap|] == data[p + |key| + |gap|..end][0];
      }
    }
  }

  /** Every line has such parts, so that the lemmas above cover all lines. */
  lemma LineHasParts(data: string, p: nat) returns (key: string, gap: string, rest: string)
    requires p < |data|
    ensures data[p..LineEnd(data, p)] == key + gap + rest && AllSpaces(gap)
    ensures forall i :: 0 <= i < |key| ==> IsKeyChar(key[i])
    ensures rest == "" || (rest[0] != ' ' && (gap == "" ==> !IsKeyChar(rest[0])))
  {
    LineOutcome(data, p);
    hide LineEnd;
    var end := LineEnd(data, p);
    var keyEnd := SkipKeyChars(data, p, end);
    var gapEnd := SkipSpaces(data, keyEnd, end);
    key, gap, rest := data[p..keyEnd], data[keyEnd..gapEnd], data[gapEnd..end];
  }

  /** One turn of the loop: headers open a section, blank lines and comments are
      passed over, and an entry needs a section before it. */
  lemma StepOutcome(data: string, p: nat, sections: seq<Section>)
    requires p < |data|
    ensures data[p] == '[' && SectionAt(data, p).Ok? ==>
      Step(data, p, sections) == Ok(sections + [SectionAt(data, p).value])
    ensures data[p] == '[' && SectionAt(data, p).Err? ==> Step(data, p, sections) == Err(SectionAt(data, p).error)
    ensures data[p] == '#' || (data[p] != '[' && IsBlankLine(data, p)) ==> Step(data, p, sections) == Ok(sections)
    ensures data[p] != '[' && data[p] != '#' && !IsBlankLine(data, p) && sections == [] ==>
      Step(data, p, sections) == Err(KeyBeforeSection)
    ensures data[p] != '[' && data[p] != '#' && !IsBlankLine(data, p) && sections != [] ==>
      match LineAt(data, p)
      case Err(e) => Step(data, p, sections) == Err(e)
      case Ok(None) => Step(data, p, sections) == Ok(sections)
      case Ok(Some(line)) =>
        Step(data, p, sections).Ok? &&
        var more := Step(data, p, sections).value;
        |more| == |sections| && more[..|more| - 1] == sections[..|sections| - 1] &&
        more[|more| - 1].name == sections[|sections| - 1].name &&
        more[|more| - 1].lines == sections[|sections| - 1].lines + [line]
  {
    hide SectionAt, LineAt, IsBlankLine;
  }
}
