/**
 * The `phone_tags` template filters: `urlencode_newlines`, which is `quote(text, safe="")` (UTF-8,
 * then percent-encoding of every byte outside the unreserved set of section 2.3 of RFC 3986, written
 * as in section 2.1 with upper-case hex digits), and `format_phone`.
 */
module PhoneTags {
  import opened Wrappers
  import opened PyText

  type Byte = b: int | 0 <= b < 256

  /** The UTF-8 encoding of one Unicode scalar value. */
  function Utf8Char(c: char): (bs: seq<Byte>)
    ensures 1 <= |bs| <= 4
    ensures (|bs| == 1) == (c as int < 0x80)
  {
    var n := c as int;
    if n < 0x80 then [n]
    else if n < 0x800 then [0xC0 + n / 64, 0x80 + n % 64]
    else if n < 0x10000 then [0xE0 + n / 4096, 0x80 + (n / 64) % 64, 0x80 + n % 64]
    else [0xF0 + n / 262144, 0x80 + (n / 4096) % 64, 0x80 + (n / 64) % 64, 0x80 + n % 64]
  }

  function Utf8(s: string): (bs: seq<Byte>)
    ensures |bs| >= |s|
  {
    if s == [] then [] else Utf8Char(s[0]) + Utf8(s[1..])
  }

  /** `A-Z a-z 0-9 - . _ ~`: the bytes `quote` never escapes. */
  predicate Unreserved(b: int) {
    ('A' as int <= b <= 'Z' as int) || ('a' as int <= b <= 'z' as int) || ('0' as int <= b <= '9' as int)
    || b == '-' as int || b == '.' as int || b == '_' as int || b == '~' as int
  }

  /** An upper-case hex digit, as `"%{:02X}"` writes it. */
  function HexDigit(d: nat): (c: char)
    requires d < 16
  {
    if d < 10 then ('0' as int + d) as char else ('A' as int + d - 10) as char
  }

  predicate IsHexDigit(c: char) {
    ('0' <= c <= '9') || ('A' <= c <= 'F')
  }

  function HexValue(c: char): (v: nat)
    requires IsHexDigit(c)
    ensures v < 16 && HexDigit(v) == c
  {
    if '0' <= c <= '9' then c as int - '0' as int else c as int - 'A' as int + 10
  }

  /** One byte as it appears in the output: itself, or `%XX`. */
  function QuoteByte(b: Byte): (r: string)
    ensures Unreserved(b) ==> r == [b as char]
    ensures !Unreserved(b) ==>
      (|r| == 3 && r[0] == '%' && IsHexDigit(r[1]) && IsHexDigit(r[2]) && HexValue(r[1]) * 16 + HexValue(r[2]) == b)
  {
    if Unreserved(b) then [b as char] else ['%', HexDigit(b / 16), HexDigit(b % 16)]
  }

  function Quote(bs: seq<Byte>): string {
    if bs == [] then [] else QuoteByte(bs[0]) + Quote(bs[1..])
  }

  /** `urlencode_newlines` */
  function UrlencodeNewlines(text: string): string {
    if text == [] then [] else Quote(Utf8(text))
  }

  /** Output made only of unreserved characters and `%XX` triples. */
  predicate WellEncoded(r: string)
    decreases |r|
  {
    if r == [] then true
    else if r[0] == '%' then |r| >= 3 && IsHexDigit(r[1]) && IsHexDigit(r[2]) && WellEncoded(r[3..])
    else Unreserved(r[0] as int) && WellEncoded(r[1..])
  }

  /** Percent-decoding back to bytes; `None` for anything `quote` cannot have produced. */
  function PercentDecode(r: string): Option<seq<Byte>>
    decreases |r|
  {
    if r == [] then Some([])
    else if r[0] == '%' then
      if |r| >= 3 && IsHexDigit(r[1]) && IsHexDigit(r[2]) then
        match PercentDecode(r[3..])
        case None => None
        case Some(rest) => Some([HexValue(r[1]) * 16 + HexValue(r[2])] + rest)
      else None
    else if Unreserved(r[0] as int) then
      match PercentDecode(r[1..])
      case None => None
      case Some(rest) => Some([r[0] as int] + rest)
    else None
  }

  lemma {:induction false} QuoteWellEncoded(bs: seq<Byte>)
    ensures WellEncoded(Quote(bs))
    decreases |bs|
  {
    if bs != [] {
      QuoteWellEncoded(bs[1..]);
      var q := QuoteByte(bs[0]);
      var r := q + Quote(bs[1..]);
      if Unreserved(bs[0]) {
        assert r[1..] == Quote(bs[1..]);
      } else {
        assert r[3..] == Quote(bs[1..]);
      }
    }
  }

  lemma DecodeQuoteByte(b: Byte, rest: string)
    ensures PercentDecode(QuoteByte(b) + rest) ==
      match PercentDecode(rest)
      case None => None
      case Some(x) => Some([b] + x)
  {
    var r := QuoteByte(b) + rest;
    if Unreserved(b) {
      assert r[0] == b as char && r[0] != '%';
      assert r[1..] == rest;
    } else {
      assert r[..3] == QuoteByte(b);
      assert r[3..] == rest;
    }
  }

  /** Decoding the output gives back the bytes. */
  lemma {:induction false} DecodeQuote(bs: seq<Byte>)
    ensures PercentDecode(Quote(bs)) == Some(bs)
    decreases |bs|
  {
    if bs != [] {
      DecodeQuote(bs[1..]);
      DecodeQuoteByte(bs[0], Quote(bs[1..]));
      assert [bs[0]] + bs[1..] == bs;
    }
  }

  /** The filter's output is well encoded and percent-decodes to the text's UTF-8 bytes. */
  lemma UrlencodeRoundTrip(text: string)
    ensures WellEncoded(UrlencodeNewlines(text))
    ensures PercentDecode(UrlencodeNewlines(text)) == Some(Utf8(text))
  {
    if text != [] {
      QuoteWellEncoded(Utf8(text));
      DecodeQuote(Utf8(text));
    }
  }

  /** A mailto body's line break. */
  lemma LineBreakEncoded()
    ensures UrlencodeNewlines("\r\n") == "%0D%0A"
  {
    assert Utf8("\r\n") == [13, 10] by {
      assert "\r\n"[1..] == "\n";
    }
    assert QuoteByte(13) == "%0D" && QuoteByte(10) == "%0A";
    assert Quote([13, 10]) == "%0D%0A" by {
      assert [13, 10][1..] == [10];
    }
  }

  /** As written: a bare line feed is quoted to `%0A` alone; nothing turns it into `%0D%0A`. */
  lemma BareNewlineEncoded()
    ensures UrlencodeNewlines("\n") == "%0A"
  {
    assert Utf8("\n") == [10];
    assert QuoteByte(10) == "%0A";
    assert Quote([10]) == "%0A" by {
      assert [10][1..] == [];
    }
  }

  /** Line breaks normalised to CRLF: a line feed not already after a carriage return gets one. */
  function Crlf(s: string): (r: string)
    ensures forall i :: 0 <= i < |r| && r[i] == '\n' ==> 0 < i && r[i - 1] == '\r'
    ensures r != [] ==> r[0] != '\n'
    ensures (forall i :: 0 <= i < |s| ==> s[i] != '\n') ==> r == s
    decreases |s|
  {
    if s == [] then []
    else if |s| >= 2 && s[0] == '\r' && s[1] == '\n' then "\r\n" + Crlf(s[2..])
    else if s[0] == '\n' then "\r\n" + Crlf(s[1..])
    else [s[0]] + Crlf(s[1..])
  }

  /** Normalising line breaks twice is normalising them once. */
  lemma {:induction false} CrlfIdempotent(s: string)
    ensures Crlf(Crlf(s)) == Crlf(s)
    decreases |s|
  {
    if s == [] {
    } else if |s| >= 2 && s[0] == '\r' && s[1] == '\n' {
      CrlfIdempotent(s[2..]);
      assert ("\r\n" + Crlf(s[2..]))[2..] == Crlf(s[2..]);
    } else if s[0] == '\n' {
      CrlfIdempotent(s[1..]);
      assert ("\r\n" + Crlf(s[1..]))[2..] == Crlf(s[1..]);
    } else {
      CrlfIdempotent(s[1..]);
      assert ([s[0]] + Crlf(s[1..]))[1..] == Crlf(s[1..]);
    }
  }

  /** The filter its docstring describes: line breaks become CRLF, then `quote(..., safe="")`. */
  function UrlencodeCrlf(text: string): string {
    if text == [] then [] else Quote(Utf8(Crlf(text)))
  }

  /** The corrected filter is well encoded, decodes to the CRLF-normalised text's UTF-8 bytes,
      and sends both a bare and a CRLF line break as `%0D%0A`. */
  lemma UrlencodeCrlfLineBreaks(text: string)
    ensures WellEncoded(UrlencodeCrlf(text))
    ensures PercentDecode(UrlencodeCrlf(text)) == Some(Utf8(Crlf(text)))
    ensures UrlencodeCrlf("\n") == "%0D%0A" && UrlencodeCrlf("\r\n") == "%0D%0A"
  {
    if text != [] {
      assert Crlf(text) != [];
      QuoteWellEncoded(Utf8(Crlf(text)));
      DecodeQuote(Utf8(Crlf(text)));
    }
    assert Crlf("\n") == "\r\n" by {
      assert Crlf("\n"[1..]) == [];
    }
    assert Crlf("\r\n") == "\r\n" by {
      assert Crlf("\r\n"[2..]) == [];
    }
    LineBreakEncoded();
  }

  /** The slash that `safe=""` no longer spares. */
  lemma SlashEncoded()
    ensures UrlencodeNewlines("a/b") == "a%2Fb"
  {
    assert Utf8("a/b") == [97, 47, 98] by {
      assert "a/b"[1..] == "/b" && "/b"[1..] == "b";
    }
    assert QuoteByte(97) == "a" && QuoteByte(47) == "%2F" && QuoteByte(98) == "b";
    assert Quote([97, 47, 98]) == "a%2Fb" by {
      assert [97, 47, 98][1..] == [47, 98] && [47, 98][1..] == [98];
    }
  }

  // ---------------------------------------------------------------------------
  // `format_phone`

  function FormatPhone(phone: string): string {
    if phone == [] then [] else Join(" ", Groups(phone, 3))
  }

  /** Splitting a formatted space-free number at its spaces gives groups of three, the last with one to
      three characters, that concatenate back to the number. */
  lemma FormatPhoneGroups(phone: string)
    requires phone != [] && ' ' !in phone
    ensures var parts := Split(FormatPhone(phone), ' ');
      && parts == Groups(phone, 3)
      && Concat(parts) == phone
      && forall i :: 0 <= i < |parts| ==> 1 <= |parts[i]| <= 3 && (i < |parts| - 1 ==> |parts[i]| == 3)
  {
    GroupsAvoid(phone, 3, ' ');
    SplitJoin(Groups(phone, 3), ' ');
  }

  lemma FormatPhoneExample()
    ensures FormatPhone("+31612345678") == "+31 612 345 678"
  {
    NumberGroups();
    NumberJoined();
  }

  lemma NumberGroups()
    ensures Groups("+31612345678", 3) == ["+31", "612", "345", "678"]
  {
    var s := "+31612345678";
    GroupsCons(s, 3);
    assert s[..3] == "+31" && s[3..] == "612345678";
    GroupsOfThree("612", "345", "678");
    assert "612" + "345" + "678" == "612345678";
  }

  lemma NumberJoined()
    ensures Join(" ", ["+31", "612", "345", "678"]) == "+31 612 345 678"
  {
    var g: seq<string> := ["+31", "612", "345", "678"];
    assert g[1..] == ["612", "345", "678"];
    JoinThree(" ", "612", "345", "678");
  }
}
