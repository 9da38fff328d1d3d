/** Server addresses of dbus-sharp (AddressEntry.cs, Address.cs, the UUID and
    hexadecimal code of Authentication.cs), in the notation of the section
    "Server Addresses" of the D-Bus Specification. */
module AddressTheory {
  import opened Collections

  datatype Error = NoColon | TooManyColons | NoEqualsSign | TooManyEqualsSigns | InvalidGuid

  const BYTE_LENGTH := 16

  /** A UUID is its sixteen bytes. */
  const ZERO_UUID: seq<Byte> := [0, 0, 0, 0, 0, 0, 0, 0, 0, 0, 0, 0, 0, 0, 0, 0]

  datatype Entry = Entry(transport: string, properties: map<string, string>, guid: seq<Byte>)

  // ---- splitting and joining -----------------------------------------------------------------

  predicate Lacks(s: string, c: char) {
    forall i :: 0 <= i < |s| ==> s[i] != c
  }

  /** String.Split */
  function Split(s: string, separator: char): (parts: seq<string>)
    ensures parts != []
  {
    if s == "" then [""]
    else
      var rest := Split(s[1..], separator);
      if s[0] == separator then [""] + rest else [[s[0]] + rest[0]] + rest[1..]
  }

  function Join(parts: seq<string>, separator: char): string {
    if parts == [] then ""
    else if |parts| == 1 then parts[0]
    else parts[0] + [separator] + Join(parts[1..], separator)
  }

  lemma {:induction false} SplitFirst(first: string, rest: string, separator: char)
    requires Lacks(first, separator)
    ensures Split(first + [separator] + rest, separator) == [first] + Split(rest, separator)
  {
    var s := first + [separator] + rest;
    if first == "" {
      assert s[1..] == rest;
    } else {
      assert s[1..] == first[1..] + [separator] + rest;
      SplitFirst(first[1..], rest, separator);
      assert [first[0]] + first[1..] == first;
    }
  }

  lemma {:induction false} SplitOne(s: string, separator: char)
    requires Lacks(s, separator)
    ensures Split(s, separator) == [s]
  {
    if s != "" {
      SplitOne(s[1..], separator);
      assert [s[0]] + s[1..] == s;
    }
  }

  lemma {:induction false} SplitJoin(parts: seq<string>, separator: char)
    requires parts != [] && forall i :: 0 <= i < |parts| ==> Lacks(parts[i], separator)
    ensures Split(Join(parts, separator), separator) == parts
  {
    if |parts| == 1 {
      SplitOne(parts[0], separator);
    } else {
      SplitFirst(parts[0], Join(parts[1..], separator), separator);
      SplitJoin(parts[1..], separator);
    }
  }

  /** The parts hold no separator, and no character the whole does not hold. */
  lemma {:induction false} PartsLack(s: string, separator: char, c: char)
    requires c == separator || Lacks(s, c)
    ensures forall i :: 0 <= i < |Split(s, separator)| ==> Lacks(Split(s, separator)[i], c)
  {
    if s != "" {
      PartsLack(s[1..], separator, c);
    }
  }

  lemma {:induction false} JoinLacks(parts: seq<string>, separator: char, c: char)
    requires c != separator && forall i :: 0 <= i < |parts| ==> Lacks(parts[i], c)
    ensures Lacks(Join(parts, separator), c)
  {
    if |parts| > 1 {
      JoinLacks(parts[1..], separator, c);
    }
  }

  // ---- escaping --------------------------------------------------------------------------------

  predicate IsLatin(s: string) {
    forall i :: 0 <= i < |s| ==> s[i] as int <= 255
  }

  /** The characters Escape leaves alone. */
  predicate IsSafe(c: char) {
    'a' <= c <= 'z' || 'A' <= c <= 'Z' || '0' <= c <= '9' || c == '-' || c == '_' || c == '/' || c == '\\' || c == '.'
  }

  function UpperHex(n: int): char
    requires 0 <= n < 16
  {
    if n < 10 then (n + '0' as int) as char else (n - 10 + 'A' as int) as char
  }

  function LowerHex(n: int): char
    requires 0 <= n < 16
  {
    if n < 10 then (n + '0' as int) as char else (n - 10 + 'a' as int) as char
  }

  /** Sasl.FromHexChar; None stands for the exception. */
  function FromHexChar(c: char): (r: Option<int>)
    ensures r.Some? ==> 0 <= r.value < 16
  {
    if 'a' <= c <= 'f' then Some(c as int - 'a' as int + 10)
    else if 'A' <= c <= 'F' then Some(c as int - 'A' as int + 10)
    else if '0' <= c <= '9' then Some(c as int - '0' as int)
    else None
  }

  function EscapeChar(c: char): string
    requires c as int <= 255
  {
    if IsSafe(c) then [c] else ['%', UpperHex(c as int / 16), UpperHex(c as int % 16)]
  }

  function Escape(s: string): string
    requires IsLatin(s)
  {
    if s == "" then "" else EscapeChar(s[0]) + Escape(s[1..])
  }

  /** Uri.IsHexEncoding at the start of `s` */
  predicate StartsEncoded(s: string) {
    |s| >= 3 && s[0] == '%' && FromHexChar(s[1]).Some? && FromHexChar(s[2]).Some?
  }

  function Unescape(s: string): string {
    if s == "" then ""
    else if StartsEncoded(s) then [(16 * FromHexChar(s[1]).value + FromHexChar(s[2]).value) as char] + Unescape(s[3..])
    else [s[0]] + Unescape(s[1..])
  }

  lemma UnescapeOne(c: char, rest: string)
    requires c as int <= 255
    ensures Unescape(EscapeChar(c) + rest) == [c] + Unescape(rest)
  {
    var s := EscapeChar(c) + rest;
    if IsSafe(c) {
      assert s[1..] == rest;
    } else {
      assert s[3..] == rest;
    }
  }

  lemma {:induction false} UnescapeEscape(s: string)
    requires IsLatin(s)
    ensures Unescape(Escape(s)) == s
  {
    if s != "" {
      UnescapeEscape(s[1..]);
      UnescapeOne(s[0], Escape(s[1..]));
      assert [s[0]] + s[1..] == s;
    }
  }

  predicate IsReserved(c: char) {
    c == ':' || c == ';' || c == ',' || c == '='
  }

  lemma {:induction false} EscapedLacks(s: string, c: char)
    requires IsLatin(s) && IsReserved(c)
    ensures Lacks(Escape(s), c)
  {
    if s != "" {
      EscapedLacks(s[1..], c);
    }
  }

  // ---- UUIDs ------------------------------------------------------------------------------------

  /** Two lower-case digits for each byte. */
  function ToHex(bytes: seq<Byte>): string {
    if bytes == [] then ""
    else [LowerHex(bytes[0] as int / 16), LowerHex(bytes[0] as int % 16)] + ToHex(bytes[1..])
  }

  /** The bytes of an even number of digits; None stands for the exceptions. */
  function FromHex(hex: string): Option<seq<Byte>> {
    if hex == "" then Some([])
    else if |hex| == 1 || FromHexChar(hex[0]) == None || FromHexChar(hex[1]) == None then None
    else
      match FromHex(hex[2..])
      case None => None
      case Some(rest) => Some([(16 * FromHexChar(hex[0]).value + FromHexChar(hex[1]).value) as Byte] + rest)
  }

  lemma {:induction false} FromHexToHex(bytes: seq<Byte>)
    ensures |ToHex(bytes)| == 2 * |bytes| && FromHex(ToHex(bytes)) == Some(bytes)
    ensures forall c :: IsReserved(c) ==> Lacks(ToHex(bytes), c)
  {
    if bytes != [] {
      FromHexToHex(bytes[1..]);
      assert ToHex(bytes)[2..] == ToHex(bytes[1..]);
      assert [bytes[0]] + bytes[1..] == bytes;
    }
  }

  lemma {:induction false} FromHexLength(hex: string)
    ensures var r := FromHex(hex); r.Some? ==> |hex| == 2 * |r.value|
  {
    if |hex| > 1 {
      FromHexLength(hex[2..]);
    }
  }

  /** UUID.Parse */
  function ParseUuid(hex: string): Option<seq<Byte>> {
    if |hex| != 2 * BYTE_LENGTH then None else FromHex(hex)
  }

  // ---- printing -----------------------------------------------------------------------------------

  function PrintProperty(key: string, value: string): string
    requires IsLatin(value)
  {
    key + "=" + Escape(value)
  }

  predicate LatinValues(e: Entry) {
    forall key :: key in e.properties ==> IsLatin(e.properties[key])
  }

  /** An order of the properties, as the dictionary enumerates them. */
  ghost predicate IsOrder(e: Entry, order: seq<string>) {
    NoDuplicates(order) && Names(e, order) && forall key :: key in e.properties ==> key in order
  }

  predicate Names(e: Entry, order: seq<string>) {
    forall i :: 0 <= i < |order| ==> order[i] in e.properties
  }

  function PrintProperties(e: Entry, order: seq<string>): seq<string>
    requires LatinValues(e) && Names(e, order)
  {
    if order == [] then [] else [PrintProperty(order[0], e.properties[order[0]])] + PrintProperties(e, order[1..])
  }

  function PrintGuid(e: Entry): seq<string> {
    if e.guid == ZERO_UUID then [] else ["guid=" + ToHex(e.guid)]
  }

  /** AddressEntry.ToString */
  function Print(e: Entry, order: seq<string>): string
    requires LatinValues(e) && Names(e, order)
  {
    e.transport + ":" + Join(PrintProperties(e, order) + PrintGuid(e), ',')
  }

  // ---- parsing ------------------------------------------------------------------------------------

  function ParseProperty(e: Entry, text: string): Result<Entry, Error> {
    var parts := Split(text, '=');
    if |parts| < 2 then Err(NoEqualsSign)
    else if |parts| > 2 then Err(TooManyEqualsSigns)
    else if parts[0] == "guid" then
      match ParseUuid(parts[1])
      case None => Err(InvalidGuid)
      case Some(guid) => Ok(e.(guid := guid))
    else Ok(e.(properties := e.properties[parts[0] := Unescape(parts[1])]))
  }

  function ParseProperties(e: Entry, texts: seq<string>): Result<Entry, Error>
    decreases |texts|
  {
    if texts == [] then Ok(e)
    else
      match ParseProperty(e, texts[0])
      case Err(how) => Err(how)
      case Ok(more) => ParseProperties(more, texts[1..])
  }

  /** AddressEntry.Parse */
  function Parse(s: string): Result<Entry, Error> {
    var parts := Split(s, ':');
    if |parts| < 2 then Err(NoColon)
    else if |parts| > 2 then Err(TooManyColons)
    else
      var e := Entry(parts[0], map[], ZERO_UUID);
      if parts[1] == "" then Ok(e) else ParseProperties(e, Split(parts[1], ','))
  }

  /** Address.Parse, on the texts between the semicolons */
  function ParseAll(texts: seq<string>): Result<seq<Entry>, Error> {
    if texts == [] then Ok([])
    else
      match Parse(texts[0])
      case Err(how) => Err(how)
      case Ok(e) =>
        match ParseAll(texts[1..])
        case Err(how) => Err(how)
        case Ok(rest) => Ok([e] + rest)
  }

  function ParseAddresses(s: string): Result<seq<Entry>, Error> {
    ParseAll(Split(s, ';'))
  }

  // ---- what can be printed and read back --------------------------------------------------------------

  predicate PlainKey(key: string) {
    key != "guid" && Lacks(key, ':') && Lacks(key, ',') && Lacks(key, '=')
  }

  predicate Plain(e: Entry) {
    && Lacks(e.transport, ':') && |e.guid| == BYTE_LENGTH
    && (forall key :: key in e.properties ==> PlainKey(key))
  }

  predicate FreeOfSemicolons(e: Entry) {
    Lacks(e.transport, ';') && forall key :: key in e.properties ==> Lacks(key, ';')
  }

  lemma PropertyReadsBack(e: Entry, key: string, value: string)
    requires PlainKey(key) && IsLatin(value)
    ensures ParseProperty(e, PrintProperty(key, value)) == Ok(e.(properties := e.properties[key := value]))
  {
    EscapedLacks(value, '=');
    SplitOne(Escape(value), '=');
    SplitFirst(key, Escape(value), '=');
    UnescapeEscape(value);
    assert key + "=" + Escape(value) == key + ['='] + Escape(value);
    hide Escape, Split, Unescape;
  }

  lemma GuidReadsBack(e: Entry, guid: seq<Byte>)
    requires |guid| == BYTE_LENGTH
    ensures ParseProperty(e, "guid=" + ToHex(guid)) == Ok(e.(guid := guid))
  {
    FromHexToHex(guid);
    SplitGuid(ToHex(guid));
    hide Split, ToHex, FromHex, Lacks;
  }

  lemma SplitGuid(hex: string)
    requires Lacks(hex, '=')
    ensures Split("guid=" + hex, '=') == ["guid", hex]
  {
    SplitOne(hex, '=');
    SplitFirst("guid", hex, '=');
    hide Split;
    assert "guid=" + hex == "guid" + ['='] + hex;
  }

  lemma {:induction false} ParsePropertiesAppend(e: Entry, a: seq<string>, b: seq<string>)
    ensures ParseProperties(e, a + b) ==
      match ParseProperties(e, a)
      case Err(how) => Err(how)
      case Ok(more) => ParseProperties(more, b)
    decreases |a|
  {
    if a == [] {
      assert a + b == b;
    } else {
      assert (a + b)[1..] == a[1..] + b;
      var first := ParseProperty(e, a[0]);
      if first.Ok? {
        ParsePropertiesAppend(first.value, a[1..], b);
      }
    }
  }

  /** The map with the properties named by `order` put in. */
  function WithAll(m: map<string, string>, e: Entry, order: seq<string>): map<string, string>
    requires Names(e, order)
    decreases |order|
  {
    if order == [] then m else WithAll(m[order[0] := e.properties[order[0]]], e, order[1..])
  }

  lemma {:induction false} WithAllContents(m: map<string, string>, e: Entry, order: seq<string>)
    requires Names(e, order)
    ensures forall key :: key in WithAll(m, e, order) <==> key in m || key in order
    ensures forall key :: key in WithAll(m, e, order) ==>
      WithAll(m, e, order)[key] == if key in order then e.properties[key] else m[key]
    decreases |order|
  {
    if order != [] {
      WithAllContents(m[order[0] := e.properties[order[0]]], e, order[1..]);
      assert order == [order[0]] + order[1..];
    }
  }

  /** The properties are read back one after the other, in any order. */
  lemma {:induction false} PropertiesReadBack(e: Entry, order: seq<string>, sofar: Entry)
    requires Plain(e) && LatinValues(e) && Names(e, order)
    ensures ParseProperties(sofar, PrintProperties(e, order)) ==
      Ok(sofar.(properties := WithAll(sofar.properties, e, order)))
    decreases |order|
  {
    if order != [] {
      var key := order[0];
      assert key in e.properties;
      PropertyReadsBack(sofar, key, e.properties[key]);
      hide PrintProperty, ParseProperty, PlainKey, IsLatin;
      PropertiesReadBack(e, order[1..], sofar.(properties := sofar.properties[key := e.properties[key]]));
      assert PrintProperties(e, order)[1..] == PrintProperties(e, order[1..]);
    }
  }

  lemma PropertyLacks(key: string, value: string, c: char)
    requires Lacks(key, c) && IsReserved(c) && c != '=' && IsLatin(value)
    ensures Lacks(PrintProperty(key, value), c)
  {
    EscapedLacks(value, c);
  }

  lemma {:induction false} PropertiesLack(e: Entry, order: seq<string>, c: char)
    requires LatinValues(e) && IsReserved(c) && c != '=' && Names(e, order)
    requires forall key :: key in e.properties ==> Lacks(key, c)
    ensures forall i :: 0 <= i < |PrintProperties(e, order)| ==> Lacks(PrintProperties(e, order)[i], c)
    ensures |PrintProperties(e, order)| == |order|
    decreases |order|
  {
    if order != [] {
      assert order[0] in e.properties;
      PropertyLacks(order[0], e.properties[order[0]], c);
      PropertiesLack(e, order[1..], c);
    }
  }

  function Texts(e: Entry, order: seq<string>): seq<string>
    requires LatinValues(e) && Names(e, order)
  {
    PrintProperties(e, order) + PrintGuid(e)
  }

  lemma TextsLack(e: Entry, order: seq<string>, c: char)
    requires LatinValues(e) && IsReserved(c) && c != '=' && Names(e, order)
    requires forall key :: key in e.properties ==> Lacks(key, c)
    ensures forall i :: 0 <= i < |Texts(e, order)| ==> Lacks(Texts(e, order)[i], c)
  {
    PropertiesLack(e, order, c);
    FromHexToHex(e.guid);
    assert Lacks("guid=", c);
    hide PrintProperties, ToHex;
  }

  lemma TextsReadBack(e: Entry, order: seq<string>)
    requires Plain(e) && LatinValues(e) && IsOrder(e, order)
    ensures ParseProperties(Entry(e.transport, map[], ZERO_UUID), Texts(e, order)) == Ok(e)
  {
    var start := Entry(e.transport, map[], ZERO_UUID);
    PropertiesReadBack(e, order, start);
    WithAllContents(map[], e, order);
    assert WithAll(map[], e, order) == e.properties;
    ParsePropertiesAppend(start, PrintProperties(e, order), PrintGuid(e));
    hide PrintProperties, WithAll;
    if e.guid != ZERO_UUID {
      GuidReadsBack(e.(guid := ZERO_UUID), e.guid);
      assert ["guid=" + ToHex(e.guid)][1..] == [];
    }
  }

  lemma {:induction false} JoinEmpty(parts: seq<string>, separator: char)
    requires forall i :: 0 <= i < |parts| ==> parts[i] != ""
    ensures Join(parts, separator) == "" <==> parts == []
  {
  }

  lemma TextsNotEmpty(e: Entry, order: seq<string>)
    requires LatinValues(e) && Names(e, order)
    ensures forall i :: 0 <= i < |Texts(e, order)| ==> Texts(e, order)[i] != ""
  {
    PropertiesNotEmpty(e, order);
    hide PrintProperties;
  }

  lemma {:induction false} PropertiesNotEmpty(e: Entry, order: seq<string>)
    requires LatinValues(e) && Names(e, order)
    ensures forall i :: 0 <= i < |PrintProperties(e, order)| ==> PrintProperties(e, order)[i] != ""
    decreases |order|
  {
    if order != [] {
      PropertiesNotEmpty(e, order[1..]);
    }
  }

  /** A plain entry reads back, its GUID included, whatever the order of its properties. */
  lemma EntryReadsBack(e: Entry, order: seq<string>)
    requires Plain(e) && LatinValues(e) && IsOrder(e, order)
    ensures Parse(Print(e, order)) == Ok(e)
  {
    var texts := Texts(e, order);
    TextsLack(e, order, ':');
    TextsLack(e, order, ',');
    TextsReadBack(e, order);
    TextsNotEmpty(e, order);
    hide Texts, Split, Lacks, ParseProperties, PrintGuid, LatinValues, IsOrder;
    JoinLacks(texts, ',', ':');
    JoinEmpty(texts, ',');
    SplitFirst(e.transport, Join(texts, ','), ':');
    SplitOne(Join(texts, ','), ':');
    assert Print(e, order) == e.transport + [':'] + Join(texts, ',') by {
      PrintIs(e, order);
    }
    hide Print;
    if texts == [] {
      NothingParsed(Entry(e.transport, map[], ZERO_UUID));
    } else {
      SplitJoin(texts, ',');
    }
  }

  lemma PrintIs(e: Entry, order: seq<string>)
    requires LatinValues(e) && Names(e, order)
    ensures Print(e, order) == e.transport + [':'] + Join(Texts(e, order), ',')
  {
  }

  lemma NothingParsed(e: Entry)
    ensures ParseProperties(e, []) == Ok(e)
  {
  }

  // ---- whatever is parsed is plain --------------------------------------------------------------------

  lemma PropertyKeepsPlain(e: Entry, text: string, c: char)
    requires Plain(e) && Lacks(text, ':') && Lacks(text, ',') && Lacks(text, c)
    requires forall key :: key in e.properties ==> Lacks(key, c)
    ensures var r := ParseProperty(e, text);
      r.Ok? ==>
        && Plain(r.value) && r.value.transport == e.transport
        && forall key :: key in r.value.properties ==> Lacks(key, c)
  {
    PartsLack(text, '=', '=');
    PartsLack(text, '=', ':');
    PartsLack(text, '=', ',');
    PartsLack(text, '=', c);
    var parts := Split(text, '=');
    if |parts| == 2 && parts[0] == "guid" {
      FromHexLength(parts[1]);
    }
    hide Split, Lacks, FromHex, Unescape;
  }

  lemma {:induction false} PropertiesKeepPlain(e: Entry, texts: seq<string>, c: char)
    requires Plain(e) && forall key :: key in e.properties ==> Lacks(key, c)
    requires forall i :: 0 <= i < |texts| ==> Lacks(texts[i], ':') && Lacks(texts[i], ',') && Lacks(texts[i], c)
    ensures var r := ParseProperties(e, texts);
      r.Ok? ==>
        && Plain(r.value) && r.value.transport == e.transport
        && forall key :: key in r.value.properties ==> Lacks(key, c)
    decreases |texts|
  {
    hide ParseProperty, Lacks, Plain;
    if texts != [] {
      PropertyKeepsPlain(e, texts[0], c);
      var r := ParseProperty(e, texts[0]);
      if r.Ok? {
        PropertiesKeepPlain(r.value, texts[1..], c);
      }
    }
  }

  /** `c` stands for a further character the text is free of. */
  lemma ParsedIsPlain(s: string, c: char)
    requires Lacks(s, c) || c == ':'
    ensures var r := Parse(s);
      r.Ok? ==>
        && Plain(r.value) && Lacks(r.value.transport, c)
        && forall key :: key in r.value.properties ==> Lacks(key, c)
  {
    PartsLack(s, ':', ':');
    PartsLack(s, ':', c);
    var parts := Split(s, ':');
    hide Split, Lacks, ParseProperties;
    if |parts| == 2 {
      PartsLack(parts[1], ',', ',');
      PartsLack(parts[1], ',', ':');
      PartsLack(parts[1], ',', c);
      PropertiesKeepPlain(Entry(parts[0], map[], ZERO_UUID), Split(parts[1], ','), c);
    }
  }

  /** Exactly the plain entries come back as they were. */
  lemma EntryReadsBackExactly(e: Entry, order: seq<string>)
    requires LatinValues(e) && IsOrder(e, order)
    ensures Parse(Print(e, order)) == Ok(e) <==> Plain(e)
  {
    if Plain(e) {
      EntryReadsBack(e, order);
    }
    ParsedIsPlain(Print(e, order), ':');
    hide Plain, Parse, Print;
  }

  // ---- lists of addresses ----------------------------------------------------------------------------

  ghost predicate Orderly(e: Entry, order: seq<string>) {
    LatinValues(e) && IsOrder(e, order)
  }

  function PrintAll(entries: seq<Entry>, orders: seq<seq<string>>): seq<string>
    requires |orders| == |entries| && forall i :: 0 <= i < |entries| ==> Orderly(entries[i], orders[i])
  {
    if entries == [] then []
    else
      assert Orderly(entries[0], orders[0]);
      [Print(entries[0], orders[0])] + PrintAll(entries[1..], orders[1..])
  }

  predicate Separable(e: Entry) {
    Plain(e) && FreeOfSemicolons(e)
  }

  lemma PrintLacksSemicolon(e: Entry, order: seq<string>)
    requires Separable(e) && LatinValues(e) && IsOrder(e, order)
    ensures Lacks(Print(e, order), ';')
  {
    TextsLack(e, order, ';');
    JoinLacks(Texts(e, order), ',', ';');
    PrintIs(e, order);
    hide Texts, Print, Join;
  }

  lemma {:induction false} AllReadBack(entries: seq<Entry>, orders: seq<seq<string>>)
    requires |orders| == |entries| && forall i :: 0 <= i < |entries| ==> Orderly(entries[i], orders[i])
    requires forall i :: 0 <= i < |entries| ==> Separable(entries[i])
    ensures ParseAll(PrintAll(entries, orders)) == Ok(entries)
    ensures |PrintAll(entries, orders)| == |entries|
    ensures forall i :: 0 <= i < |entries| ==> Lacks(PrintAll(entries, orders)[i], ';')
    decreases |entries|
  {
    if entries != [] {
      assert Separable(entries[0]) && Orderly(entries[0], orders[0]);
      EntryReadsBack(entries[0], orders[0]);
      PrintLacksSemicolon(entries[0], orders[0]);
      hide Print, Parse, Orderly, Plain, FreeOfSemicolons, Lacks;
      AllReadBack(entries[1..], orders[1..]);
      assert PrintAll(entries, orders)[1..] == PrintAll(entries[1..], orders[1..]);
      assert [entries[0]] + entries[1..] == entries;
    }
  }

  lemma {:induction false} AllParsedAreSeparable(texts: seq<string>)
    requires forall i :: 0 <= i < |texts| ==> Lacks(texts[i], ';')
    ensures var r := ParseAll(texts);
      r.Ok? ==> |r.value| == |texts| && forall i :: 0 <= i < |r.value| ==> Separable(r.value[i])
    decreases |texts|
  {
    hide Parse, Lacks;
    if texts != [] {
      ParsedIsPlain(texts[0], ';');
      AllParsedAreSeparable(texts[1..]);
    }
  }

  /** The printed addresses, joined by semicolons, read back exactly when every
      entry is plain and free of semicolons, and there is at least one. */
  lemma AddressesReadBackExactly(entries: seq<Entry>, orders: seq<seq<string>>)
    requires |orders| == |entries| && forall i :: 0 <= i < |entries| ==> Orderly(entries[i], orders[i])
    ensures ParseAddresses(Join(PrintAll(entries, orders), ';')) == Ok(entries) <==>
      (entries != [] && forall i :: 0 <= i < |entries| ==> Separable(entries[i]))
  {
    var texts := PrintAll(entries, orders);
    if entries != [] && forall i :: 0 <= i < |entries| ==> Separable(entries[i]) {
      AllReadBack(entries, orders);
      SplitJoin(texts, ';');
    }
    PartsLack(Join(texts, ';'), ';', ';');
    AllParsedAreSeparable(Split(Join(texts, ';'), ';'));
    hide PrintAll, Split, Join, Lacks, Separable, ParseAll;
  }
}
