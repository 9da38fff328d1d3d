/** The address code of dbus-sharp over its string builders and the entry it
    fills in. */
module ServerAddress {
  import opened Collections
  import opened AddressTheory

  /** AddressEntry.Escape; None stands for the exception Uri.HexEscape throws. */
  method EscapeText(str: string) returns (text: Option<string>)
    ensures text == if IsLatin(str) then Some(Escape(str)) else None
  {
    hide EscapeChar;
    var sb, i := "", 0;
    while i != |str|
      invariant 0 <= i <= |str| && IsLatin(str[..i])
      invariant IsLatin(str) ==> Escape(str) == sb + Escape(str[i..])
    {
      var c := str[i];
      if c as int > 255 {
        return None;
      }
      EscapeNext(sb, str, i);
      sb, i := sb + EscapeChar(c), i + 1;
    }
    assert str[..i] == str && str[i..] == "" && sb + "" == sb;
    return Some(sb);
  }

  /** AddressEntry.Unescape */
  method UnescapeText(str: string) returns (text: string)
    ensures text == Unescape(str)
  {
    var i := 0;
    text := "";
    while i != |str|
      invariant 0 <= i <= |str| && Unescape(str) == text + Unescape(str[i..])
      decreases |str| - i
    {
      UnescapeNext(str, i);
      if StartsEncoded(str[i..]) {
        text := text + [(16 * FromHexChar(str[i + 1]).value + FromHexChar(str[i + 2]).value) as char];
        i := i + 3;
      } else {
        text := text + [str[i]];
        i := i + 1;
      }
    }
    assert text + "" == text;
  }

  /** Sasl.ToHex and the loop of UUID.ToString */
  method HexOf(input: seq<Byte>) returns (hex: string)
    ensures hex == ToHex(input)
  {
    hex := "";
    var i := 0;
    while i != |input|
      invariant 0 <= i <= |input| && ToHex(input) == hex + ToHex(input[i..])
    {
      assert input[i..][1..] == input[i + 1..];
      hex := hex + [LowerHex(input[i] as int / 16), LowerHex(input[i] as int % 16)];
      i := i + 1;
    }
  }

  /** Sasl.FromHex and the loop of UUID.Parse, into a buffer of the right size. */
  method BytesOf(hex: string) returns (bytes: Option<seq<Byte>>)
    ensures bytes == FromHex(hex)
  {
    if |hex| % 2 == 1 {
      OddIsRefused(hex);
      return None;
    }
    var result := new Byte[|hex| / 2];
    var n, i := 0, 0;
    ExtendNothing(FromHex(hex));
    assert result[..0] == [] && hex[0..] == hex;
    while n < result.Length
      invariant 0 <= n <= result.Length && i == 2 * n
      invariant FromHex(hex) == Extended(result[..n], FromHex(hex[i..]))
    {
      DecodeNext(result[..n], hex, i);
      hide FromHex, FromHexChar, Extended;
      var high, low := FromHexChar(hex[i]), FromHexChar(hex[i + 1]);
      if high == None || low == None {
        return None;
      }
      ghost var before := result[..n];
      result[n] := (high.value * 16) as Byte;
      result[n] := result[n] + low.value as Byte;
      assert result[..n + 1] == before + [(16 * high.value + low.value) as Byte];
      n, i := n + 1, i + 2;
    }
    assert hex[i..] == "" && result[..] == result[..n] && result[..n] + [] == result[..n];
    return Some(result[..]);
  }

  lemma DecodeNext(bytes: seq<Byte>, hex: string, i: nat)
    requires i + 1 < |hex|
    ensures var high, low, r := FromHexChar(hex[i]), FromHexChar(hex[i + 1]), Extended(bytes, FromHex(hex[i..]));
      if high == None || low == None then r == None
      else r == Extended(bytes + [(16 * high.value + low.value) as Byte], FromHex(hex[i + 2..]))
  {
    var high, low := FromHexChar(hex[i]), FromHexChar(hex[i + 1]);
    assert hex[i..][2..] == hex[i + 2..];
    if high.Some? && low.Some? {
      ExtendOneMore(bytes, (16 * high.value + low.value) as Byte, FromHex(hex[i + 2..]));
    }
  }

  class AddressEntry {
    var transport: string
    var properties: map<string, string>
    var guid: seq<Byte>

    function Snapshot(): Entry
      reads this
    {
      Entry(transport, properties, guid)
    }

    constructor (transport: string)
      ensures Snapshot() == Entry(transport, map[], ZERO_UUID)
    {
      this.transport, properties, guid := transport, map[], ZERO_UUID;
    }

    /** ToString; None stands for the exception on a value that cannot be escaped. */
    method ToText(order: seq<string>) returns (text: Option<string>)
      requires IsOrder(Snapshot(), order)
      ensures text.Some? <==> LatinValues(Snapshot())
      ensures text.Some? ==> text.value == Print(Snapshot(), order)
    {
      ghost var e := Snapshot();
      var listed := PropertiesText(order);
      if listed == None {
        return None;
      }
      PrintInSteps(e, order);
      hide Listed, ToHex, IsOrder, Print, LatinValues;
      var sb := transport + ":" + listed.value;
      if guid != ZERO_UUID {
        if |properties| != 0 {
          sb := sb + ",";
        }
        var hex := HexOf(guid);
        sb := sb + "guid=";
        sb := sb + hex;
      }
      return Some(sb);
    }

    /** The loop of ToString over the properties. */
    method PropertiesText(order: seq<string>) returns (text: Option<string>)
      requires IsOrder(Snapshot(), order)
      ensures text.Some? <==> LatinValues(Snapshot())
      ensures text.Some? ==> text.value == Listed(Snapshot(), order)
    {
      ghost var e := Snapshot();
      hide Escape, NoDuplicates;
      var sb := "";
      var first, i := true, 0;
      while i < |order|
        invariant 0 <= i <= |order| && (first <==> i == 0)
        invariant forall k :: 0 <= k < i ==> IsLatin(properties[order[k]])
        invariant sb == Listed(e, order[..i])
      {
        var prop := order[i];
        var value := EscapeText(properties[prop]);
        if value == None {
          assert prop in properties && !IsLatin(properties[prop]);
          return None;
        }
        ListOneMore(e, order, i);
        if first {
          first := false;
        } else {
          sb := sb + [','];
        }
        sb := sb + prop + ['='] + value.value;
        i := i + 1;
      }
      AllLatin(e, order);
      assert order[..i] == order;
      return Some(sb);
    }

    /** What Parse does with one property. */
    method ReadProperty(text: string) returns (error: Option<Error>)
      modifies `properties, `guid
      ensures match ParseProperty(old(Snapshot()), text)
              case Err(how) => error == Some(how)
              case Ok(e) => error == None && Snapshot() == e
    {
      var parts := Split(text, '=');
      if |parts| < 2 {
        return Some(NoEqualsSign);
      }
      if |parts| > 2 {
        return Some(TooManyEqualsSigns);
      }
      if parts[0] == "guid" {
        if |parts[1]| != 2 * BYTE_LENGTH {
          return Some(InvalidGuid);
        }
        var bytes := BytesOf(parts[1]);
        if bytes == None {
          return Some(InvalidGuid);
        }
        guid := bytes.value;
        return None;
      }
      var value := UnescapeText(parts[1]);
      properties := properties[parts[0] := value];
      return None;
    }

    /** Parse */
    static method FromText(s: string) returns (entry: AddressEntry?, error: Error)
      ensures match Parse(s)
              case Err(how) => entry == null && error == how
              case Ok(e) => entry != null && fresh(entry) && entry.Snapshot() == e
    {
      var parts := Split(s, ':');
      if |parts| < 2 {
        return null, NoColon;
      }
      if |parts| > 2 {
        return null, TooManyColons;
      }
      entry := new AddressEntry(parts[0]);
      error := NoColon;
      if |parts[1]| > 0 {
        var texts, i := Split(parts[1], ','), 0;
        hide ParseProperty, Split;
        while i < |texts|
          invariant 0 <= i <= |texts| && entry != null && fresh(entry)
          invariant ParseProperties(entry.Snapshot(), texts[i..]) == Parse(s)
        {
          assert texts[i..][1..] == texts[i + 1..];
          var problem := entry.ReadProperty(texts[i]);
          if problem.Some? {
            return null, problem.value;
          }
          i := i + 1;
        }
      }
    }
  }

  /** Address.Parse, giving what the entries say. */
  method ParseList(addresses: string) returns (entries: Result<seq<Entry>, Error>)
    ensures entries == ParseAddresses(addresses)
  {
    var texts, i := Split(addresses, ';'), 0;
    var list: seq<Entry> := [];
    hide Parse, Split;
    FollowNothing(ParseAll(texts));
    while i < |texts|
      invariant 0 <= i <= |texts|
      invariant ParseAll(texts) == Followed(list, ParseAll(texts[i..]))
    {
      assert texts[i..][1..] == texts[i + 1..];
      var entry, error := AddressEntry.FromText(texts[i]);
      if entry == null {
        return Err(error);
      }
      FollowOneMore(list, entry.Snapshot(), ParseAll(texts[i + 1..]));
      list := list + [entry.Snapshot()];
      i := i + 1;
    }
    assert texts[i..] == [] && list + [] == list;
    return Ok(list);
  }

  lemma UnescapeNext(str: string, i: nat)
    requires i < |str|
    ensures if StartsEncoded(str[i..])
            then i + 3 <= |str| && FromHexChar(str[i + 1]).Some? && FromHexChar(str[i + 2]).Some?
                 && Unescape(str[i..]) ==
                      [(16 * FromHexChar(str[i + 1]).value + FromHexChar(str[i + 2]).value) as char]
                      + Unescape(str[i + 3..])
            else Unescape(str[i..]) == [str[i]] + Unescape(str[i + 1..])
  {
    assert str[i..][1..] == str[i + 1..];
    if StartsEncoded(str[i..]) {
      assert str[i..][3..] == str[i + 3..];
    }
  }

  function Followed(list: seq<Entry>, r: Result<seq<Entry>, Error>): Result<seq<Entry>, Error> {
    match r
    case Err(how) => Err(how)
    case Ok(rest) => Ok(list + rest)
  }

  lemma FollowNothing(r: Result<seq<Entry>, Error>)
    ensures Followed([], r) == r
  {
    if r.Ok? {
      assert [] + r.value == r.value;
    }
  }

  lemma FollowOneMore(list: seq<Entry>, e: Entry, r: Result<seq<Entry>, Error>)
    ensures Followed(list, Followed([e], r)) == Followed(list + [e], r)
  {
    if r.Ok? {
      assert list + ([e] + r.value) == list + [e] + r.value;
    }
  }

  function Extended(bytes: seq<Byte>, r: Option<seq<Byte>>): Option<seq<Byte>> {
    match r
    case None => None
    case Some(rest) => Some(bytes + rest)
  }

  lemma ExtendNothing(r: Option<seq<Byte>>)
    ensures Extended([], r) == r
  {
    if r.Some? {
      assert [] + r.value == r.value;
    }
  }

  lemma ExtendOneMore(bytes: seq<Byte>, b: Byte, r: Option<seq<Byte>>)
    ensures Extended(bytes, Extended([b], r)) == Extended(bytes + [b], r)
  {
    if r.Some? {
      assert bytes + ([b] + r.value) == bytes + [b] + r.value;
    }
  }

  lemma {:induction false} OddIsRefused(hex: string)
    requires |hex| % 2 == 1
    ensures FromHex(hex) == None
    decreases |hex|
  {
    if |hex| > 1 {
      OddIsRefused(hex[2..]);
    }
  }

  lemma EscapeNext(sb: string, str: string, i: nat)
    requires i < |str| && str[i] as int <= 255 && IsLatin(str[..i])
    ensures IsLatin(str[..i + 1])
    ensures IsLatin(str) ==> sb + Escape(str[i..]) == sb + EscapeChar(str[i]) + Escape(str[i + 1..])
  {
    hide EscapeChar;
    assert str[i..][1..] == str[i + 1..];
  }

  /** The properties of `order`, separated by commas. */
  function Listed(e: Entry, order: seq<string>): string
    requires Names(e, order) && forall k :: 0 <= k < |order| ==> IsLatin(e.properties[order[k]])
  {
    if order == [] then ""
    else
      var last := order[|order| - 1];
      Listed(e, order[..|order| - 1]) + (if |order| == 1 then "" else ",") + PrintProperty(last, e.properties[last])
  }

  lemma ListOneMore(e: Entry, order: seq<string>, i: nat)
    requires i < |order| && Names(e, order) && forall k :: 0 <= k <= i ==> IsLatin(e.properties[order[k]])
    ensures Names(e, order[..i]) && Names(e, order[..i + 1])
    ensures Listed(e, order[..i + 1]) ==
      Listed(e, order[..i]) + (if i == 0 then "" else ",") + PrintProperty(order[i], e.properties[order[i]])
  {
    assert order[..i + 1][..i] == order[..i];
  }

  lemma AllLatin(e: Entry, order: seq<string>)
    requires IsOrder(e, order) && forall k :: 0 <= k < |order| ==> IsLatin(e.properties[order[k]])
    ensures LatinValues(e)
  {
  }

  lemma {:induction false} JoinOneMore(parts: seq<string>, last: string, separator: char)
    ensures Join(parts + [last], separator) == if parts == [] then last else Join(parts, separator) + [separator] + last
  {
    if |parts| > 0 {
      assert (parts + [last])[1..] == parts[1..] + [last];
      JoinOneMore(parts[1..], last, separator);
    }
  }

  lemma {:induction false} PropertiesLength(e: Entry, order: seq<string>)
    requires LatinValues(e) && Names(e, order)
    ensures |PrintProperties(e, order)| == |order|
    decreases |order|
  {
    if order != [] {
      PropertiesLength(e, order[1..]);
    }
  }

  lemma {:induction false} PropertiesOneMore(e: Entry, order: seq<string>, last: string)
    requires LatinValues(e) && Names(e, order + [last])
    ensures Names(e, order) && last in e.properties
    ensures PrintProperties(e, order + [last]) == PrintProperties(e, order) + [PrintProperty(last, e.properties[last])]
    decreases |order|
  {
    assert (order + [last])[|order|] == last;
    assert forall i :: 0 <= i < |order| ==> (order + [last])[i] == order[i];
    if order != [] {
      assert (order + [last])[1..] == order[1..] + [last];
      PropertiesOneMore(e, order[1..], last);
    }
  }

  lemma {:induction false} ListedIsJoin(e: Entry, order: seq<string>)
    requires LatinValues(e) && Names(e, order)
    ensures Listed(e, order) == Join(PrintProperties(e, order), ',')
    decreases |order|
  {
    if order != [] {
      var front, last := order[..|order| - 1], order[|order| - 1];
      assert order == front + [last];
      ListedIsJoin(e, front);
      PropertiesOneMore(e, front, last);
      PropertiesLength(e, front);
      JoinOneMore(PrintProperties(e, front), PrintProperty(last, e.properties[last]), ',');
    }
  }

  /** The text in the pieces it is put together from. */
  lemma PrintInSteps(e: Entry, order: seq<string>)
    requires LatinValues(e) && IsOrder(e, order)
    ensures var start := e.transport + ":" + Listed(e, order);
      Print(e, order) ==
        if e.guid == ZERO_UUID then start
        else (if |e.properties| != 0 then start + "," else start) + "guid=" + ToHex(e.guid)
  {
    OrderOfNone(e, order);
    ListedIsJoin(e, order);
    PropertiesLength(e, order);
    PrintIs(e, order);
    var parts, guid := PrintProperties(e, order), "guid=" + ToHex(e.guid);
    JoinOneMore(parts, guid, ',');
    JoinOfNone(',');
    InPieces(e.transport, Join(parts, ','), "guid=", ToHex(e.guid));
    assert Texts(e, order) == parts + if e.guid == ZERO_UUID then [] else [guid];
    assert parts + [] == parts;
    hide PrintProperties, Listed, ToHex, IsOrder, Print, LatinValues, Join, Texts;
  }

  lemma InPieces(transport: string, listed: string, name: string, hex: string)
    ensures transport + ":" + listed == transport + [':'] + listed
    ensures transport + ":" + listed + "," + name + hex == transport + [':'] + (listed + [','] + (name + hex))
    ensures listed == "" ==> transport + ":" + listed + name + hex == transport + [':'] + (name + hex)
  {
  }

  lemma JoinOfNone(separator: char)
    ensures Join([], separator) == ""
  {
  }

  lemma OrderOfNone(e: Entry, order: seq<string>)
    requires IsOrder(e, order)
    ensures |e.properties| == 0 <==> order == []
  {
    if order != [] {
      assert order[0] in e.properties;
    }
    if |e.properties| != 0 {
      var key :| key in e.properties;
      assert key in order;
    }
  }
}
