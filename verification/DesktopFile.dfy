/** The parser of bus/desktop-file.c over its cursor, its growing arrays and the
    buffer it unescapes into. */
module DesktopFile {
  import opened Collections
  import opened DesktopFileTheory

  /** A BusDesktopFileSection with the room there is for lines. */
  datatype StoredSection = StoredSection(section: Section, allocatedLines: nat)

  function Stored(sections: seq<StoredSection>): seq<Section> {
    seq(|sections|, i requires 0 <= i < |sections| => sections[i].section)
  }

  /** There is room for what is stored, and at most twice as much as needed. */
  predicate Roomy(used: nat, room: nat) {
    used <= room && (room <= 1 || room < 2 * used)
  }

  class BusDesktopFileParser {
    const data: string
    var pos: nat
    var sections: seq<StoredSection>
    var allocatedSections: nat

    ghost predicate Valid()
      reads this
    {
      && pos <= |data|
      && Roomy(|sections|, allocatedSections)
      && forall i :: 0 <= i < |sections| ==> Roomy(|sections[i].section.lines|, sections[i].allocatedLines)
    }

    constructor (data: string)
      ensures Valid() && this.data == data && pos == 0 && sections == []
    {
      this.data, pos, sections, allocatedSections := data, 0, [], 0;
    }

    // ---- scanning ---------------------------------------------------------------------------

    /** _dbus_string_find_eol */
    static method EolOf(data: string, start: nat) returns (end: nat, length: nat)
      requires start <= |data|
      ensures (end, length) == FindEol(data, start)
    {
      var i := start;
      while i < |data|
        invariant start <= i <= |data| && FindEol(data, i) == FindEol(data, start)
      {
        if data[i] == '\r' {
          if i + 1 < |data| && data[i + 1] == '\n' {
            return i, 2;
          }
          return i, 1;
        } else if data[i] == '\n' {
          return i, 1;
        }
        i := i + 1;
      }
      return |data|, 0;
    }

    /** is_blank_line */
    static method Blank(data: string, start: nat) returns (blank: bool)
      requires start <= |data|
      ensures blank == IsBlankLine(data, start)
    {
      var p := start;
      var c := ByteAt(data, p);
      while c != NUL && c != '\n'
        invariant p <= |data| && c == ByteAt(data, p) && IsBlankLine(data, p) == IsBlankLine(data, start)
        decreases |data| - p
      {
        if !IsBlankChar(c) {
          return false;
        }
        p := p + 1;
        c := ByteAt(data, p);
      }
      return true;
    }

    static method KeyEnd(data: string, start: nat, end: nat) returns (p: nat)
      requires start <= end <= |data|
      ensures p == SkipKeyChars(data, start, end)
    {
      p := start;
      while p < end && IsKeyChar(data[p])
        invariant start <= p <= end && SkipKeyChars(data, p, end) == SkipKeyChars(data, start, end)
      {
        p := p + 1;
      }
    }

    static method SpacesEnd(data: string, start: nat, end: nat) returns (p: nat)
      requires start <= end <= |data|
      ensures p == SkipSpaces(data, start, end)
    {
      p := start;
      while p < end && data[p] == ' '
        invariant start <= p <= end && SkipSpaces(data, p, end) == SkipSpaces(data, start, end)
      {
        p := p + 1;
      }
    }

    /** is_valid_section_name */
    static method ValidSectionName(name: string) returns (valid: bool)
      ensures valid == IsValidSectionName(name)
    {
      var i := 0;
      while i < |name| && IsNameChar(name[i])
        invariant 0 <= i <= |name| && forall k :: 0 <= k < i ==> IsNameChar(name[k])
      {
        i := i + 1;
      }
      return i == |name|;
    }

    /** unescape_string, into a buffer one longer than the text. */
    static method UnescapeText(data: string, start: nat, end: nat) returns (r: Result<string, Error>)
      requires start <= end <= |data|
      ensures r == Unescape(data[start..end])
    {
      var buffer := new char[end - start + 1];
      var q, p := 0, start;
      PrependNothing(Unescape(data[start..end]));
      assert buffer[..0] == "";
      while p < end
        invariant start <= p <= end && q <= p - start
        invariant Unescape(data[start..end]) == Prepended(buffer[..q], Unescape(data[p..end]))
      {
        UnescapeNext(data, p, end);
        if data[p] == NUL {
          return Err(InvalidEscapes);
        }
        var c := data[p];
        var width := 1;
        if data[p] == '\\' {
          if p + 1 >= end || Code(data[p + 1]) == None {
            return Err(InvalidEscapes);
          }
          c, width := Code(data[p + 1]).value, 2;
        }
        PrependOneMore(buffer[..q], c, Unescape(data[p + width..end]));
        ghost var before := buffer[..q];
        buffer[q] := c;
        assert buffer[..q + 1] == before + [c];
        q, p := q + 1, p + width;
      }
      assert data[end..end] == "" && buffer[..q] + "" == buffer[..q];
      ghost var text := buffer[..q];
      buffer[q] := NUL;
      assert buffer[..q] == text;
      return Ok(buffer[..q]);
    }

    // ---- storing ----------------------------------------------------------------------------

    /** new_section: both arrays double when they are full. */
    method NewSection(name: string)
      requires Valid()
      modifies `sections, `allocatedSections
      ensures Valid() && Stored(sections) == Stored(old(sections)) + [Section(name, [])]
    {
      if allocatedSections == |sections| {
        allocatedSections := if allocatedSections == 0 then 1 else allocatedSections * 2;
      }
      sections := sections + [StoredSection(Section(name, []), 1)];
    }

    /** new_line in the section being parsed, the last one. */
    method NewLine(line: Line)
      requires Valid() && sections != []
      modifies `sections
      ensures Valid() && Stored(sections) == AddLine(Stored(old(sections)), line)
    {
      var current := |sections| - 1;
      var last := sections[current];
      if last.allocatedLines == |last.section.lines| {
        last := last.(allocatedLines := if last.allocatedLines == 0 then 1 else last.allocatedLines * 2);
      }
      last := last.(section := last.section.(lines := last.section.lines + [line]));
      sections := sections[..current] + [last];
    }

    // ---- parsing ----------------------------------------------------------------------------

    /** parse_comment_or_blank */
    method ParseCommentOrBlank()
      requires Valid() && pos < |data|
      modifies `pos
      ensures Valid() && pos == NextLine(data, old(pos))
    {
      var end, length := EolOf(data, pos);
      pos := if end == |data| then |data| else end + length;
    }

    /** parse_section_start */
    method ParseSectionStart() returns (error: Option<Error>)
      requires Valid() && pos < |data|
      modifies `pos, `sections, `allocatedSections
      ensures Valid()
      ensures match SectionAt(data, old(pos))
              case Err(e) => error == Some(e)
              case Ok(s) =>
                error == None && Stored(sections) == Stored(old(sections)) + [s] && pos == NextLine(data, old(pos))
    {
      hide IsValidSectionName;
      var end, length := EolOf(data, pos);
      if end - pos <= 2 || data[end - 1] != ']' {
        return Some(InvalidSyntax);
      }
      var name := UnescapeText(data, pos + 1, end - 1);
      if name.Err? {
        return Some(name.error);
      }
      var valid := ValidSectionName(name.value);
      if !valid {
        return Some(InvalidChars);
      }
      NewSection(name.value);
      pos := if end == |data| then |data| else end + length;
      return None;
    }

    /** parse_key_value */
    method ParseKeyValue() returns (error: Option<Error>)
      requires Valid() && pos < |data| && sections != []
      modifies `pos, `sections
      ensures Valid()
      ensures match LineAt(data, old(pos))
              case Err(e) => error == Some(e)
              case Ok(None) => error == None && sections == old(sections) && pos == NextLine(data, old(pos))
              case Ok(Some(line)) =>
                error == None && Stored(sections) == AddLine(Stored(old(sections)), line) &&
                  pos == NextLine(data, old(pos))
    {
      hide Stored, AddLine, Unescape;
      var end, length := EolOf(data, pos);
      var keyEnd := KeyEnd(data, pos, end);
      if keyEnd == pos {
        return Some(InvalidSyntax);
      }
      if keyEnd < end && data[keyEnd] == '[' {
        pos := if end == |data| then |data| else end + length;
        return None;
      }
      var p := SpacesEnd(data, keyEnd, end);
      if p < end && data[p] != '=' {
        return Some(InvalidChars);
      }
      if p == end {
        return Some(InvalidSyntax);
      }
      p := SpacesEnd(data, p + 1, end);
      var value := UnescapeText(data, p, end);
      if value.Err? {
        return Some(value.error);
      }
      NewLine(Line(data[pos..keyEnd], value.value));
      pos := if end == |data| then |data| else end + length;
      return None;
    }

    /** The loop of bus_desktop_file_load. */
    method Load() returns (r: Result<seq<Section>, Error>)
      requires Valid() && pos == 0 && sections == []
      modifies this
      ensures Valid() && r == Parse(data)
    {
      hide Stored, LineAt, SectionAt, AddLine, NextLine, IsBlankLine;
      assert Stored(sections) == [] by {
        StoredNothing();
      }
      while pos < |data|
        invariant Valid() && ParseFrom(data, pos, Stored(sections)) == Parse(data)
        decreases |data| - pos
      {
        StoredLength(sections);
        var error := None;
        var blank := Blank(data, pos);
        if data[pos] == '[' {
          error := ParseSectionStart();
        } else if blank || data[pos] == '#' {
          ParseCommentOrBlank();
        } else if sections == [] {
          return Err(KeyBeforeSection);
        } else {
          error := ParseKeyValue();
        }
        if error.Some? {
          return Err(error.value);
        }
      }
      return Ok(Stored(sections));
    }

    // ---- looking up --------------------------------------------------------------------------

    /** bus_desktop_file_get_raw: the first section of the name, and in it the
        first line of the key. */
    static method GetRaw(sections: seq<Section>, name: string, key: string) returns (value: Option<string>)
      ensures value.Some? ==> exists i, j ::
        && FirstSection(sections, name, i) && FirstLine(sections[i].lines, key, j) &&
           value == Some(sections[i].lines[j].value)
      ensures value == None ==>
        || (forall i :: 0 <= i < |sections| ==> sections[i].name != name)
        || (exists i :: FirstSection(sections, name, i)
              && forall j :: 0 <= j < |sections[i].lines| ==> sections[i].lines[j].key != key)
    {
      var i := 0;
      while i < |sections| && sections[i].name != name
        invariant 0 <= i <= |sections| && forall k :: 0 <= k < i ==> sections[k].name != name
      {
        i := i + 1;
      }
      if i == |sections| {
        return None;
      }
      assert FirstSection(sections, name, i);
      var j := 0;
      while j < |sections[i].lines| && sections[i].lines[j].key != key
        invariant 0 <= j <= |sections[i].lines| && forall k :: 0 <= k < j ==> sections[i].lines[k].key != key
      {
        j := j + 1;
      }
      if j == |sections[i].lines| {
        return None;
      }
      assert FirstLine(sections[i].lines, key, j);
      return Some(sections[i].lines[j].value);
    }
  }

  predicate FirstSection(sections: seq<Section>, name: string, i: int) {
    0 <= i < |sections| && sections[i].name == name && forall k :: 0 <= k < i ==> sections[k].name != name
  }

  predicate FirstLine(lines: seq<Line>, key: string, j: int) {
    0 <= j < |lines| && lines[j].key == key && forall k :: 0 <= k < j ==> lines[k].key != key
  }

  function Prepended(text: string, r: Result<string, Error>): Result<string, Error> {
    match r
    case Err(e) => Err(e)
    case Ok(rest) => Ok(text + rest)
  }

  lemma PrependNothing(r: Result<string, Error>)
    ensures Prepended("", r) == r
  {
    if r.Ok? {
      assert "" + r.value == r.value;
    }
  }

  lemma PrependOneMore(text: string, c: char, r: Result<string, Error>)
    ensures Prepended(text, Prepended([c], r)) == Prepended(text + [c], r)
  {
    if r.Ok? {
      assert text + ([c] + r.value) == text + [c] + r.value;
    }
  }

  /** What unescaping makes of the next character. */
  lemma UnescapeNext(data: string, p: nat, end: nat)
    requires p < end <= |data|
    ensures var r := Unescape(data[p..end]);
      if data[p] == NUL then r == Err(InvalidEscapes)
      else if data[p] != '\\' then r == Prepended([data[p]], Unescape(data[p + 1..end]))
      else if p + 1 >= end || Code(data[p + 1]) == None then r == Err(InvalidEscapes)
      else r == Prepended([Code(data[p + 1]).value], Unescape(data[p + 2..end]))
  {
    assert data[p..end][1..] == data[p + 1..end];
    if p + 1 < end {
      assert data[p..end][2..] == data[p + 2..end];
    }
  }

  lemma StoredLength(sections: seq<StoredSection>)
    ensures |Stored(sections)| == |sections|
  {
  }

  lemma StoredNothing()
    ensures Stored([]) == []
  {
  }
}
