/** What a server address text comes to (AddressEntry.cs): which texts are refused
    with which error, and what the others mean, said of the text itself. */
module AddressOutcome {
  import opened Collections
  import opened AddressTheory

  function Occurrences(s: string, c: char): nat {
    if s == "" then 0 else Occurrences(s[1..], c) + if s[0] == c then 1 else 0
  }

  lemma {:induction false} SplitOutcome(s: string, c: char)
    ensures |Split(s, c)| == Occurrences(s, c) + 1 && Join(Split(s, c), c) == s
    ensures Occurrences(s, c) == 0 <==> Lacks(s, c)
  {
    if s != "" {
      SplitOutcome(s[1..], c);
      var rest := Split(s[1..], c);
      assert s == [s[0]] + s[1..];
      if s[0] == c {
        assert ([""] + rest)[1..] == rest;
      } else {
        assert Split(s, c)[1..] == rest[1..];
        JoinFirst(s[0], rest, c);
      }
    }
  }

  lemma JoinFirst(first: char, parts: seq<string>, c: char)
    requires parts != []
    ensures Join([[first] + parts[0]] + parts[1..], c) == [first] + Join(parts, c)
  {
  }

  lemma TwoParts(s: string, c: char)
    requires Occurrences(s, c) == 1
    ensures var parts := Split(s, c);
      |parts| == 2 && s == parts[0] + [c] + parts[1] && Lacks(parts[0], c) && Lacks(parts[1], c)
  {
    SplitOutcome(s, c);
    PartsLack(s, c, c);
    var parts := Split(s, c);
    assert parts == [parts[0], parts[1]];
    hide Split;
  }

  // ---- hexadecimal digits -------------------------------------------------------------------------

  const DIGITS := "0123456789abcdef"
  const UPPER_DIGITS := "0123456789ABCDEF"

  /** Digits count in either case, and nothing else does. */
  lemma DigitOutcome(c: char)
    ensures forall n :: 0 <= n < 16 && (DIGITS[n] == c || UPPER_DIGITS[n] == c) ==> FromHexChar(c) == Some(n)
    ensures FromHexChar(c).Some? ==> DIGITS[FromHexChar(c).value] == c || UPPER_DIGITS[FromHexChar(c).value] == c
  {
    if FromHexChar(c).Some? {
      var n := FromHexChar(c).value;
      assert DIGITS[n] == c || UPPER_DIGITS[n] == c;
    }
  }

  /** A UUID is read from exactly 32 digits, two for each byte, the high one first. */
  lemma UuidOutcome(hex: string)
    ensures ParseUuid(hex).Some? <==> |hex| == 32 && forall i :: 0 <= i < 32 ==> FromHexChar(hex[i]).Some?
    ensures ParseUuid(hex).Some? ==>
      |ParseUuid(hex).value| == 16 && forall i :: 0 <= i < 16 ==>
        ParseUuid(hex).value[i] as int == 16 * FromHexChar(hex[2 * i]).value + FromHexChar(hex[2 * i + 1]).value
  {
    if |hex| == 32 {
      BytesOutcome(hex);
    }
  }

  lemma {:induction false} BytesOutcome(hex: string)
    requires |hex| % 2 == 0
    ensures FromHex(hex).Some? <==> forall i :: 0 <= i < |hex| ==> FromHexChar(hex[i]).Some?
    ensures FromHex(hex).Some? ==>
      |FromHex(hex).value| == |hex| / 2 && forall i :: 0 <= i < |hex| / 2 ==>
        FromHex(hex).value[i] as int == 16 * FromHexChar(hex[2 * i]).value + FromHexChar(hex[2 * i + 1]).value
  {
    hide FromHexChar;
    if hex != "" {
      var rest := hex[2..];
      BytesOutcome(rest);
      assert forall i :: 2 <= i < |hex| ==> hex[i] == rest[i - 2];
      assert forall i :: 0 <= i < |rest| ==> rest[i] == hex[i + 2];
    }
  }

  // ---- escapes --------------------------------------------------------------------------------------

  /** Letters, digits and - . / \ _ by their codes. */
  predicate IsPortable(c: char) {
    var n := c as int;
    48 <= n <= 57 || 65 <= n <= 90 || 97 <= n <= 122 || n in {45, 46, 47, 92, 95}
  }

  /** An escaped text holds only the characters the specification lets stand, and
      percent signs; a text of such characters is left as it is. */
  lemma {:induction false} EscapeOutcome(s: string)
    requires IsLatin(s)
    ensures forall i :: 0 <= i < |Escape(s)| ==> IsPortable(Escape(s)[i]) || Escape(s)[i] == '%'
    ensures Escape(s) == s <==> forall i :: 0 <= i < |s| ==> IsPortable(s[i])
    ensures |Escape(s)| >= |s|
  {
    if s != "" {
      EscapeOutcome(s[1..]);
      EscapedOne(s[0]);
      hide IsPortable, EscapeChar;
      assert s == [s[0]] + s[1..];
      if |EscapeChar(s[0])| == 1 {
        assert Escape(s)[1..] == Escape(s[1..]);
      }
      assert forall i :: 1 <= i < |s| ==> s[i] == s[1..][i - 1];
    }
  }

  lemma EscapedOne(c: char)
    requires c as int <= 255
    ensures var e := EscapeChar(c);
      && e != "" && (forall i :: 0 <= i < |e| ==> IsPortable(e[i]) || e[i] == '%')
      && (if IsPortable(c) then e == [c] else |e| == 3)
  {
    SafeIsPortable(c);
    SafeIsPortable(UpperHex(c as int / 16));
    SafeIsPortable(UpperHex(c as int % 16));
    hide IsPortable;
  }

  lemma SafeIsPortable(c: char)
    ensures IsSafe(c) <==> IsPortable(c)
  {
  }

  lemma CharacterIsCopied(c: char, rest: string)
    requires c != '%'
    ensures Unescape([c] + rest) == [c] + Unescape(rest)
  {
    hide FromHexChar;
    assert ([c] + rest)[1..] == rest;
  }

  lemma {:induction false} PlainIsCopied(plain: string, rest: string)
    requires Lacks(plain, '%')
    ensures Unescape(plain + rest) == plain + Unescape(rest)
  {
    hide Unescape;
    if plain == "" {
      assert plain + rest == rest;
    } else {
      PlainIsCopied(plain[1..], rest);
      CharacterIsCopied(plain[0], plain[1..] + rest);
      assert plain + rest == [plain[0]] + (plain[1..] + rest);
      assert plain == [plain[0]] + plain[1..];
    }
  }

  /** Unescaping replaces the complete encodings from left to right. */
  lemma EncodedIsDecoded(plain: string, code: string, rest: string)
    requires Lacks(plain, '%') && |code| == 3 && code[0] == '%'
    requires FromHexChar(code[1]).Some? && FromHexChar(code[2]).Some?
    ensures Unescape(plain + (code + rest)) ==
      plain + ([(16 * FromHexChar(code[1]).value + FromHexChar(code[2]).value) as char] + Unescape(rest))
  {
    PlainIsCopied(plain, code + rest);
    hide FromHexChar;
    assert (code + rest)[3..] == rest;
  }

  /** A percent sign that starts no encoding is copied like other characters. */
  lemma BrokenIsCopied(plain: string, rest: string)
    requires Lacks(plain, '%') && (|rest| < 2 || FromHexChar(rest[0]) == None || FromHexChar(rest[1]) == None)
    ensures Unescape(plain + ("%" + rest)) == plain + ("%" + Unescape(rest))
  {
    PlainIsCopied(plain, "%" + rest);
    hide FromHexChar;
    assert ("%" + rest)[1..] == rest;
  }

  // ---- properties -----------------------------------------------------------------------------------

  /** Whether a property is accepted depends on its text alone. */
  lemma PropertyOutcome(e: Entry, text: string)
    ensures var r := ParseProperty(e, text);
      && (r == Err(NoEqualsSign) <==> Lacks(text, '='))
      && (r == Err(TooManyEqualsSigns) <==> Occurrences(text, '=') > 1)
      && (r == Err(InvalidGuid) <==> exists hex :: text == "guid=" + hex && Lacks(hex, '=') && ParseUuid(hex) == None)
      && (r.Err? ==> r.error in {NoEqualsSign, TooManyEqualsSigns, InvalidGuid})
  {
    SplitOutcome(text, '=');
    hide Unescape, ParseUuid, Lacks;
    if Occurrences(text, '=') == 1 {
      TwoParts(text, '=');
      var parts := Split(text, '=');
      hide Split;
      if parts[0] == "guid" {
        assert text == "guid=" + parts[1];
      }
    }
    forall hex | text == "guid=" + hex && Lacks(hex, '=') && ParseUuid(hex) == None
      ensures ParseProperty(e, text) == Err(InvalidGuid)
    {
      SplitGuid(hex);
    }
  }

  /** What an accepted property says. */
  lemma PropertyMeans(e: Entry, key: string, value: string)
    requires Lacks(key, '=') && Lacks(value, '=')
    ensures var r := ParseProperty(e, key + "=" + value);
      && (key != "guid" ==> r == Ok(e.(properties := e.properties[key := Unescape(value)])))
      && (key == "guid" && ParseUuid(value).Some? ==> r == Ok(e.(guid := ParseUuid(value).value)))
  {
    SplitOne(value, '=');
    SplitFirst(key, value, '=');
    assert key + "=" + value == key + ['='] + value;
    hide Split, Unescape, ParseUuid, Lacks;
  }

  /** The first property that is refused decides about the error. */
  lemma {:induction false} PropertiesOutcome(e: Entry, texts: seq<string>)
    ensures ParseProperties(e, texts).Ok? <==> forall i :: 0 <= i < |texts| ==> ParseProperty(e, texts[i]).Ok?
    ensures forall i :: (0 <= i < |texts| && ParseProperty(e, texts[i]).Err?
        && forall j :: 0 <= j < i ==> ParseProperty(e, texts[j]).Ok?) ==>
          ParseProperties(e, texts) == Err(ParseProperty(e, texts[i]).error)
    decreases |texts|
  {
    hide ParseProperty;
    if texts != [] {
      var first := ParseProperty(e, texts[0]);
      if first.Ok? {
        PropertiesOutcome(first.value, texts[1..]);
        forall i | 0 <= i < |texts|
          ensures ParseProperty(first.value, texts[i]).Ok? == ParseProperty(e, texts[i]).Ok?
          ensures ParseProperty(e, texts[i]).Err? ==> ParseProperty(first.value, texts[i]) == ParseProperty(e, texts[i])
        {
          TextDecides(e, first.value, texts[i]);
        }
        assert forall i :: 1 <= i < |texts| ==> texts[i] == texts[1..][i - 1];
      }
    }
  }

  lemma TextDecides(e: Entry, other: Entry, text: string)
    ensures ParseProperty(e, text).Ok? == ParseProperty(other, text).Ok?
    ensures ParseProperty(e, text).Err? ==> ParseProperty(other, text) == ParseProperty(e, text)
  {
    hide Split, Unescape, ParseUuid;
  }

  // ---- addresses ------------------------------------------------------------------------------------

  /** An address is a transport, a colon and properties between commas. */
  lemma AddressOutcome(s: string)
    ensures Parse(s) == Err(NoColon) <==> Lacks(s, ':')
    ensures Parse(s) == Err(TooManyColons) <==> Occurrences(s, ':') > 1
    ensures forall transport, rest :: s == transport + ":" + rest && Lacks(transport, ':') && Lacks(rest, ':') ==>
      Parse(s) == if rest == "" then Ok(Entry(transport, map[], ZERO_UUID))
                  else ParseProperties(Entry(transport, map[], ZERO_UUID), Split(rest, ','))
  {
    SplitOutcome(s, ':');
    if Occurrences(s, ':') == 1 {
      TwoParts(s, ':');
      var parts := Split(s, ':');
      NeverAboutColons(Entry(parts[0], map[], ZERO_UUID), Split(parts[1], ','));
    }
    hide Split, ParseProperties, Lacks;
    forall transport, rest | s == transport + ":" + rest && Lacks(transport, ':') && Lacks(rest, ':')
      ensures Split(s, ':') == [transport, rest]
    {
      SplitOne(rest, ':');
      SplitFirst(transport, rest, ':');
      assert transport + ":" + rest == transport + [':'] + rest;
    }
  }

  lemma {:induction false} NeverAboutColons(e: Entry, texts: seq<string>)
    ensures var r := ParseProperties(e, texts); r.Err? ==> r.error != NoColon && r.error != TooManyColons
    decreases |texts|
  {
    hide Split, Unescape, ParseUuid;
    if texts != [] && ParseProperty(e, texts[0]).Ok? {
      NeverAboutColons(ParseProperty(e, texts[0]).value, texts[1..]);
    }
  }

  /** A list holds one address more than semicolons; the first that is refused
      decides about the error. */
  lemma ListOutcome(s: string)
    ensures var (r, parts) := (ParseAddresses(s), Split(s, ';'));
      && |parts| == Occurrences(s, ';') + 1 && Join(parts, ';') == s
      && (r.Ok? <==> forall i :: 0 <= i < |parts| ==> Parse(parts[i]).Ok?)
      && (r.Ok? ==> |r.value| == |parts| && forall i :: 0 <= i < |parts| ==> Parse(parts[i]) == Ok(r.value[i]))
      && forall i :: (0 <= i < |parts| && Parse(parts[i]).Err? && forall j :: 0 <= j < i ==> Parse(parts[j]).Ok?) ==>
           r == Err(Parse(parts[i]).error)
  {
    SplitOutcome(s, ';');
    hide Split, Parse;
    AllOutcome(Split(s, ';'));
  }

  lemma {:induction false} AllOutcome(parts: seq<string>)
    ensures var r := ParseAll(parts);
      && (r.Ok? <==> forall i :: 0 <= i < |parts| ==> Parse(parts[i]).Ok?)
      && (r.Ok? ==> |r.value| == |parts| && forall i :: 0 <= i < |parts| ==> Parse(parts[i]) == Ok(r.value[i]))
      && forall i :: (0 <= i < |parts| && Parse(parts[i]).Err? && forall j :: 0 <= j < i ==> Parse(parts[j]).Ok?) ==>
           r == Err(Parse(parts[i]).error)
    decreases |parts|
  {
    hide Parse;
    if parts != [] {
      AllOutcome(parts[1..]);
      assert forall i :: 1 <= i < |parts| ==> parts[i] == parts[1..][i - 1];
    }
  }
}
