/** `mailto:` links: percent-encoded UTF-8 addr-specs, and reading them back. */
module Mailto {
  import opened Base
  import opened Address
  import E = Email

  const MAILTO_MAX_CHARS: nat := 1800

  datatype RecipientField = To | Bcc

  datatype Link = Url(url: string) | LinkTooLong(length: nat)

  // UTF-8

  function Utf8Char(c: char): seq<Byte> {
    var n := c as int;
    if n < 0x80 then [n]
    else if n < 0x800 then [0xC0 + n / 64, 0x80 + n % 64]
    else if n < 0x1_0000 then [0xE0 + n / 4096, 0x80 + n / 64 % 64, 0x80 + n % 64]
    else [0xF0 + n / 262144, 0x80 + n / 4096 % 64, 0x80 + n / 64 % 64, 0x80 + n % 64]
  }

  function Utf8(s: string): seq<Byte> {
    if s == [] then [] else Utf8Char(s[0]) + Utf8(s[1..])
  }

  predicate Scalar(n: int) { 0 <= n < 0xD800 || 0xE000 <= n < 0x11_0000 }

  /** How many bytes a character starting with `b` takes. */
  function Width(b: Byte): nat { if b < 0x80 then 1 else if b < 0xE0 then 2 else if b < 0xF0 then 3 else 4 }

  /** What a continuation byte adds. */
  function Low(s: seq<Byte>, i: nat): int
    requires i < |s|
  {
    var b: int := s[i];
    b - 0x80
  }

  /** The code point that `Width(s[0])` bytes spell. */
  function CodePoint(s: seq<Byte>): int
    requires s != [] && Width(s[0]) <= |s|
  {
    var first: int := s[0];
    if first < 0x80 then first
    else if first < 0xE0 then (first - 0xC0) * 64 + Low(s, 1)
    else if first < 0xF0 then (first - 0xE0) * 4096 + Low(s, 1) * 64 + Low(s, 2)
    else (first - 0xF0) * 262144 + Low(s, 1) * 4096 + Low(s, 2) * 64 + Low(s, 3)
  }

  function DecodeUtf8(s: seq<Byte>): Option<string>
    decreases |s|
  {
    if s == [] then Some([])
    else if Width(s[0]) > |s| || !Scalar(CodePoint(s)) then None
    else
      match DecodeUtf8(s[Width(s[0])..])
      case None => None
      case Some(rest) => Some([CodePoint(s) as char] + rest)
  }

  lemma CharDecodes(c: char, rest: seq<Byte>)
    ensures var s := Utf8Char(c) + rest;
            && s != [] && Width(s[0]) == |Utf8Char(c)| && CodePoint(s) == c as int
  {
    var n := c as int;
    assert n % 64 == n - n / 64 * 64;
    assert n / 64 % 64 == n / 64 - n / 4096 * 64;
    assert n / 4096 % 64 == n / 4096 - n / 262144 * 64;
  }

  lemma {:induction false} Utf8RoundTrip(s: string)
    ensures DecodeUtf8(Utf8(s)) == Some(s)
  {
    if s != [] {
      hide Utf8Char, CodePoint, Width;
      var rest := Utf8(s[1..]);
      CharDecodes(s[0], rest);
      assert (Utf8Char(s[0]) + rest)[|Utf8Char(s[0])|..] == rest;
      Utf8RoundTrip(s[1..]);
      assert s == [s[0]] + s[1..];
    }
  }

  // Percent-encoding

  predicate Unreserved(b: Byte) {
    || 0x61 <= b <= 0x7A || 0x41 <= b <= 0x5A || 0x30 <= b <= 0x39
    || b == 0x2D || b == 0x2E || b == 0x5F || b == 0x7E || b == 0x40
  }

  function Hex(v: int): char
    requires 0 <= v < 16
  {
    if v < 10 then (0x30 + v) as char else (0x41 + v - 10) as char
  }

  function HexValue(c: char): Option<int> {
    if '0' <= c <= '9' then Some(c as int - 0x30)
    else if 'A' <= c <= 'F' then Some(c as int - 0x41 + 10)
    else if 'a' <= c <= 'f' then Some(c as int - 0x61 + 10)
    else None
  }

  function EncodedByte(b: Byte): string {
    if Unreserved(b) then [b as char] else ['%', Hex(b / 16), Hex(b % 16)]
  }

  function Encoded(bytes: seq<Byte>): string {
    if bytes == [] then [] else Encoded(bytes[..|bytes| - 1]) + EncodedByte(bytes[|bytes| - 1])
  }

  method PercentEncode(s: string) returns (out: string)
    ensures out == Encoded(Utf8(s))
  {
    var bytes := Utf8(s);
    out := [];
    for i := 0 to |bytes|
      invariant out == Encoded(bytes[..i])
    {
      assert bytes[..i + 1][..i] == bytes[..i];
      if Unreserved(bytes[i]) {
        out := out + [bytes[i] as char];
      } else {
        out := out + ['%', Hex(bytes[i] / 16), Hex(bytes[i] % 16)];
      }
    }
    assert bytes[..|bytes|] == bytes;
  }

  function PercentDecode(s: string): Option<seq<Byte>>
    decreases |s|
  {
    if s == [] then Some([])
    else if s[0] == '%' then
      if |s| < 3 || HexValue(s[1]).None? || HexValue(s[2]).None? then None
      else
        match PercentDecode(s[3..])
        case None => None
        case Some(rest) => Some([HexValue(s[1]).value * 16 + HexValue(s[2]).value] + rest)
    else if s[0] as int >= 0x80 then None
    else
      match PercentDecode(s[1..])
      case None => None
      case Some(rest) => Some([s[0] as int] + rest)
  }

  lemma {:induction false} EncodedFromFront(b: Byte, rest: seq<Byte>)
    ensures Encoded([b] + rest) == EncodedByte(b) + Encoded(rest)
  {
    var s := [b] + rest;
    if rest == [] {
      assert s[..0] == [];
    } else {
      assert s[..|s| - 1] == [b] + rest[..|rest| - 1];
      EncodedFromFront(b, rest[..|rest| - 1]);
    }
  }

  lemma ByteDecodes(b: Byte, rest: string)
    requires PercentDecode(rest).Some?
    ensures PercentDecode(EncodedByte(b) + rest) == Some([b] + PercentDecode(rest).value)
  {
    var s := EncodedByte(b) + rest;
    if Unreserved(b) {
      assert s[1..] == rest;
    } else {
      assert s[3..] == rest && s[1] == Hex(b / 16) && s[2] == Hex(b % 16);
      assert HexValue(Hex(b / 16)) == Some(b / 16) && HexValue(Hex(b % 16)) == Some(b % 16);
    }
  }

  lemma {:induction false} PercentRoundTrip(bytes: seq<Byte>)
    ensures PercentDecode(Encoded(bytes)) == Some(bytes)
  {
    if bytes != [] {
      hide EncodedByte;
      var rest := bytes[1..];
      assert bytes == [bytes[0]] + rest;
      EncodedFromFront(bytes[0], rest);
      PercentRoundTrip(rest);
      ByteDecodes(bytes[0], Encoded(rest));
    }
  }

  /** Letters, digits, `-`, `.`, `_`, `~` and `@` are written as they are, and every other byte as its two hexadecimal digits. */
  lemma EncodesExactly(b: Byte)
    ensures var plain := 'a' <= b as char <= 'z' || 'A' <= b as char <= 'Z' || '0' <= b as char <= '9' || b as char in "-._~@";
            && (plain ==> EncodedByte(b) == [b as char])
            && (!plain ==> EncodedByte(b) == ['%', "0123456789ABCDEF"[b / 16], "0123456789ABCDEF"[b % 16]])
  {
    forall v: int | 0 <= v < 16 ensures "0123456789ABCDEF"[v] == Hex(v) {}
  }

  /** Nothing that delimits a link survives in what is encoded. */
  lemma {:induction false} EncodedIsSafe(bytes: seq<Byte>)
    ensures ',' !in Encoded(bytes) && '?' !in Encoded(bytes)
  {
    if bytes != [] {
      EncodedIsSafe(bytes[..|bytes| - 1]);
      ByteIsSafe(bytes[|bytes| - 1]);
    }
  }

  lemma ByteIsSafe(b: Byte)
    ensures ',' !in EncodedByte(b) && '?' !in EncodedByte(b)
  {
  }

  // Links

  function Parts(recipients: seq<string>): seq<string> {
    seq(|recipients|, i requires 0 <= i < |recipients| => Encoded(Utf8(AddressSpec(recipients[i]))))
  }

  function Prefix(field: RecipientField): string { if field.To? then "mailto:" else "mailto:?bcc=" }

  function MailtoLink(recipients: seq<string>, field: RecipientField): Link {
    var url := Prefix(field) + Joined(Parts(recipients), ",");
    if |url| > MAILTO_MAX_CHARS then LinkTooLong(|url|) else Url(url)
  }

  /** A comma-separated part decoded to the text it spells. */
  function ReadPart(part: string): Option<string> {
    match PercentDecode(part)
    case None => None
    case Some(bytes) => DecodeUtf8(bytes)
  }

  /** The addr-specs of a link's list (RFC 6068, section 2), which has none when it is empty. */
  function ReadParts(list: string): seq<Option<string>> {
    if list == [] then []
    else
      var parts := E.SplitOn(list, ',');
      seq(|parts|, i requires 0 <= i < |parts| => ReadPart(parts[i]))
  }

  /** A reader of links: which field they fill in, and with which addr-specs. */
  function ReadLink(url: string): Option<(RecipientField, seq<Option<string>>)> {
    if "mailto:?bcc=" <= url then Some((Bcc, ReadParts(url[12..])))
    else if "mailto:" <= url then Some((To, ReadParts(url[7..])))
    else None
  }

  lemma PartReads(spec: string)
    ensures ReadPart(Encoded(Utf8(spec))) == Some(spec)
  {
    PercentRoundTrip(Utf8(spec));
    Utf8RoundTrip(spec);
  }

  function Snoc(pieces: seq<string>, c: char, x: char): seq<string>
    requires pieces != []
  {
    if x == c then pieces + [[]] else pieces[..|pieces| - 1] + [pieces[|pieces| - 1] + [x]]
  }

  lemma SplitSnoc(s: string, c: char, x: char)
    ensures E.SplitOn(s + [x], c) == Snoc(E.SplitOn(s, c), c, x)
  {
    assert (s + [x])[..|s|] == s;
  }

  lemma SnocLater(l: seq<string>, r: seq<string>, c: char, x: char)
    requires r != []
    ensures Snoc(l + r, c, x) == l + Snoc(r, c, x)
  {
    assert (l + r)[..|l| + |r| - 1] == l + r[..|r| - 1];
  }

  lemma {:induction false} SplitAppend(a: string, c: char, b: string)
    ensures E.SplitOn(a + [c] + b, c) == E.SplitOn(a, c) + E.SplitOn(b, c)
  {
    if b == [] {
      SplitSnoc(a, c, c);
      assert a + [c] + b == a + [c];
      assert E.SplitOn(b, c) == [[]];
    } else {
      hide E.SplitOn, Snoc;
      var init, x := b[..|b| - 1], b[|b| - 1];
      assert b == init + [x];
      assert a + [c] + b == (a + [c] + init) + [x];
      SplitAppend(a, c, init);
      SplitSnoc(a + [c] + init, c, x);
      SplitSnoc(init, c, x);
      SnocLater(E.SplitOn(a, c), E.SplitOn(init, c), c, x);
    }
  }

  lemma {:induction false} SplitWhole(s: string, c: char)
    requires c !in s
    ensures E.SplitOn(s, c) == [s]
  {
    if s != [] {
      SplitWhole(s[..|s| - 1], c);
      assert s == s[..|s| - 1] + [s[|s| - 1]];
    }
  }

  lemma {:induction false} SplitUndoesJoin(list: seq<string>)
    requires list != [] && forall s :: s in list ==> ',' !in s
    ensures E.SplitOn(Joined(list, ","), ',') == list
  {
    SplitWhole(list[0], ',');
    if |list| > 1 {
      assert forall s :: s in list[1..] ==> s in list;
      SplitUndoesJoin(list[1..]);
      SplitAppend(list[0], ',', Joined(list[1..], ","));
      assert list == [list[0]] + list[1..];
    }
  }

  lemma {:induction false} JoinedKeepsOut(list: seq<string>, sep: string, c: char)
    requires c !in sep && forall s :: s in list ==> c !in s
    ensures c !in Joined(list, sep)
  {
    if |list| > 1 {
      assert forall s :: s in list[1..] ==> s in list;
      JoinedKeepsOut(list[1..], sep, c);
    }
  }

  lemma ReadPartsOfJoined(recipients: seq<string>)
    requires Addresses(recipients)
    ensures var list := Joined(Parts(recipients), ",");
            && '?' !in list
            && |ReadParts(list)| == |recipients|
            && forall i :: 0 <= i < |recipients| ==> ReadParts(list)[i] == Some(AddressSpec(recipients[i]))
  {
    hide AddressSpec, Encoded, Utf8, ReadPart;
    var parts := Parts(recipients);
    forall i | 0 <= i < |recipients|
      ensures ReadPart(parts[i]) == Some(AddressSpec(recipients[i])) && ',' !in parts[i] && '?' !in parts[i] && parts[i] != []
    {
      var spec := AddressSpec(recipients[i]);
      assert recipients[i] in recipients;
      PartReads(spec);
      EncodedIsSafe(Utf8(spec));
      SpecStarts(recipients[i]);
      EncodedNonEmpty(spec);
    }
    JoinedKeepsOut(parts, ",", '?');
    if recipients != [] {
      SplitUndoesJoin(parts);
      assert Joined(parts, ",") != [];
    }
  }

  lemma EncodedNonEmpty(spec: string)
    requires spec != []
    ensures Encoded(Utf8(spec)) != []
  {
    PartReads(spec);
    assert PercentDecode([]) == Some([]) && DecodeUtf8([]) == Some([]);
  }

  /**
   A link is made exactly when it is at most 1800 characters, and reading it gives the field
   and every recipient's addr-spec, in order, each of which names the recipient.
   */
  lemma LinkReadsBack(recipients: seq<string>, field: RecipientField)
    requires Addresses(recipients)
    ensures match MailtoLink(recipients, field)
            case Url(url) =>
              && |url| <= 1800
              && ReadLink(url).Some? && ReadLink(url).value.0 == field
              && |ReadLink(url).value.1| == |recipients|
              && forall i :: 0 <= i < |recipients| ==>
                   && ReadLink(url).value.1[i].Some?
                   && ReadAddress(ReadLink(url).value.1[i].value) == recipients[i]
            case LinkTooLong(n) => n == |Prefix(field) + Joined(Parts(recipients), ",")| && n > 1800
  {
    hide ReadParts, Parts, ReadAddress, AddressSpec;
    ReadPartsOfJoined(recipients);
    var list := Joined(Parts(recipients), ",");
    var url := Prefix(field) + list;
    assert url[|Prefix(field)|..] == list;
    assert Prefix(Bcc)[7] == '?';
    assert field.To? && list != [] ==> url[7] == list[0];
    forall i | 0 <= i < |recipients| ensures ReadAddress(AddressSpec(recipients[i])) == recipients[i] {
      assert recipients[i] in recipients;
      ReadWritten(recipients[i]);
    }
  }
}
