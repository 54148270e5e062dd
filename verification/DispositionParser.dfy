/** How a recipient reads the name of a download back: the header grammar of
    section 4.1 of RFC 6266 and the extended values of section 3.2 of RFC 5987. */
module DispositionParser {
  import opened Prelude
  import opened Content
  import opened DownloadName

  datatype Parameter =
    | Plain(name: string, text: string)
    | Extended(name: string, charset: string, language: string, bytes: Bytes)

  predicate IsAlphanumeric(c: char) {
    'a' <= c <= 'z' || 'A' <= c <= 'Z' || '0' <= c <= '9'
  }

  /** A character that stands for itself in an extended value. */
  predicate IsAttrChar(c: char) {
    IsAlphanumeric(c) || c == '!' || c == '#' || c == '$' || c == '&' || c == '+' || c == '-' || c == '.'
    || c == '^' || c == '_' || c == '`' || c == '|' || c == '~'
  }

  /** A character of a token. */
  predicate IsTokenChar(c: char) {
    IsAttrChar(c) || c == '%' || c == '\'' || c == '*'
  }

  function TokenLength(s: string): (n: nat)
    ensures n <= |s| && (forall i :: 0 <= i < n ==> IsTokenChar(s[i])) && (n < |s| ==> !IsTokenChar(s[n]))
  {
    if s == "" || !IsTokenChar(s[0]) then 0 else 1 + TokenLength(s[1..])
  }

  function SkipSpace(s: string): (r: string)
    ensures |r| <= |s|
  {
    if s != "" && (s[0] == ' ' || s[0] == '\t') then SkipSpace(s[1..]) else s
  }

  /** The text of a quoted string and what follows it; `s` begins behind the
      opening quote. */
  function Unquote(s: string): (r: Option<(string, string)>)
    ensures r.Some? ==> |r.value.1| < |s|
  {
    if s == "" then None
    else if s[0] == '"' then Some(("", s[1..]))
    else if s[0] == '\\' then
      if |s| < 2 then None
      else
        match Unquote(s[2..])
        case None => None
        case Some((text, rest)) => Some(([s[1]] + text, rest))
    else
      match Unquote(s[1..])
      case None => None
      case Some((text, rest)) => Some(([s[0]] + text, rest))
  }

  function HexValue(c: char): Option<nat> {
    if '0' <= c <= '9' then Some(c as int - '0' as int)
    else if 'A' <= c <= 'F' then Some(c as int - 'A' as int + 10)
    else if 'a' <= c <= 'f' then Some(c as int - 'a' as int + 10)
    else None
  }

  /** The bytes of an extended value and what follows it. */
  function ValueChars(s: string): (r: Option<(Bytes, string)>)
    ensures r.Some? ==> |r.value.1| <= |s|
  {
    if s == "" then Some(([], s))
    else if s[0] == '%' then
      if |s| < 3 || HexValue(s[1]).None? || HexValue(s[2]).None? then None
      else
        match ValueChars(s[3..])
        case None => None
        case Some((bytes, rest)) => Some(([16 * HexByte(s[1]) + HexByte(s[2])] + bytes, rest))
    else if IsAttrChar(s[0]) then
      match ValueChars(s[1..])
      case None => None
      case Some((bytes, rest)) => Some(([s[0] as int] + bytes, rest))
    else Some(([], s))
  }

  function HexByte(c: char): (n: nat)
    requires HexValue(c).Some?
    ensures n < 16
  {
    HexValue(c).value
  }

  /** What precedes the first `'`, and what follows it. */
  function UntilApostrophe(s: string): (r: Option<(string, string)>)
    ensures r.Some? ==> |r.value.1| < |s|
  {
    if s == "" then None
    else if s[0] == '\'' then Some(("", s[1..]))
    else
      match UntilApostrophe(s[1..])
      case None => None
      case Some((text, rest)) => Some(([s[0]] + text, rest))
  }

  /** `charset'language'value-chars` */
  function ParseExtended(name: string, s: string): (r: Option<(Parameter, string)>)
    ensures r.Some? ==> |r.value.1| <= |s|
  {
    match UntilApostrophe(s)
    case None => None
    case Some((charset, s1)) =>
      match UntilApostrophe(s1)
      case None => None
      case Some((language, s2)) =>
        match ValueChars(s2)
        case None => None
        case Some((bytes, rest)) => Some((Extended(name, charset, language, bytes), rest))
  }

  function ParseValue(name: string, s: string): (r: Option<(Parameter, string)>)
    ensures r.Some? ==> |r.value.1| <= |s|
  {
    if name != "" && name[|name| - 1] == '*' then ParseExtended(name, s)
    else if s != "" && s[0] == '"' then
      match Unquote(s[1..])
      case None => None
      case Some((text, rest)) => Some((Plain(name, text), rest))
    else
      var n := TokenLength(s);
      if n == 0 then None else Some((Plain(name, s[..n]), s[n..]))
  }

  function ParseParameter(s: string): (r: Option<(Parameter, string)>)
    ensures r.Some? ==> |r.value.1| <= |s|
  {
    var n := TokenLength(s);
    var after := SkipSpace(s[n..]);
    if n == 0 || after == "" || after[0] != '=' then None
    else ParseValue(s[..n], SkipSpace(after[1..]))
  }

  function ParseParameters(s: string): Option<seq<Parameter>>
    decreases |s|
  {
    var s1 := SkipSpace(s);
    if s1 == "" then Some([])
    else if s1[0] != ';' then None
    else
      match ParseParameter(SkipSpace(s1[1..]))
      case None => None
      case Some((parameter, rest)) =>
        match ParseParameters(rest)
        case None => None
        case Some(parameters) => Some([parameter] + parameters)
  }

  function ParseHeader(s: string): Option<(string, seq<Parameter>)> {
    var n := TokenLength(s);
    if n == 0 then None
    else
      match ParseParameters(s[n..])
      case None => None
      case Some(parameters) => Some((s[..n], parameters))
  }

  function Find(parameters: seq<Parameter>, name: string): Option<Parameter> {
    if parameters == [] then None
    else if parameters[0].name == name then Some(parameters[0])
    else Find(parameters[1..], name)
  }

  /** The name a recipient uses: `filename*` where present, else `filename`. */
  function RecoveredName(header: string): Option<string> {
    match ParseHeader(header)
    case None => None
    case Some((_, parameters)) =>
      match Find(parameters, "filename*")
      case Some(Extended(_, charset, _, bytes)) => if charset == "UTF-8" then Utf8.Decode(bytes) else None
      case Some(Plain(_, _)) => None
      case None =>
        match Find(parameters, "filename")
        case Some(Plain(_, text)) => Some(text)
        case _ => None
  }

  // ----- Reading back what is written ---------------------------------------

  lemma {:induction false} TokenIs(t: string, rest: string)
    requires forall i :: 0 <= i < |t| ==> IsTokenChar(t[i])
    requires rest == "" || !IsTokenChar(rest[0])
    ensures TokenLength(t + rest) == |t|
  {
    if t != "" {
      assert (t + rest)[1..] == t[1..] + rest;
      TokenIs(t[1..], rest);
    } else {
      assert t + rest == rest;
    }
  }

  lemma {:induction false} UnquoteSafe(t: string, rest: string)
    requires forall i :: 0 <= i < |t| ==> IsSafe(t[i])
    ensures Unquote(t + ("\"" + rest)) == Some((t, rest))
  {
    var s := t + ("\"" + rest);
    if t != "" {
      assert s[1..] == t[1..] + ("\"" + rest);
      assert s[0] == t[0];
      UnquoteSafe(t[1..], rest);
      assert [t[0]] + t[1..] == t;
    } else {
      assert s == "\"" + rest;
      assert s[1..] == rest;
    }
  }

  lemma {:induction false} EncodedFront(b: Byte, bytes: Bytes)
    ensures PercentEncoded([b] + bytes) == EncodedByte(b) + PercentEncoded(bytes)
  {
    var all := [b] + bytes;
    var n := |bytes|;
    if bytes == [] {
      assert all[..n] == [];
      assert PercentEncoded([]) == "";
    } else {
      var front, last := bytes[..n - 1], EncodedByte(bytes[n - 1]);
      EncodedFront(b, front);
      assert all[..n] == [b] + front && all[n] == bytes[n - 1];
      assert (EncodedByte(b) + PercentEncoded(front)) + last == EncodedByte(b) + (PercentEncoded(front) + last);
    }
  }

  lemma HexDigitsValue(b: Byte)
    ensures HexValue(HexDigit(b / 16)) == Some(b / 16) && HexValue(HexDigit(b % 16)) == Some(b % 16)
    ensures 16 * (b / 16) + b % 16 == b
  {
  }

  lemma OneByteReadsBack(b: Byte, rest: string)
    requires ValueChars(rest).Some?
    ensures ValueChars(EncodedByte(b) + rest) == Some(([b] + ValueChars(rest).value.0, ValueChars(rest).value.1))
  {
    var s := EncodedByte(b) + rest;
    HexDigitsValue(b);
    if IsUnreserved(b) {
      assert s[1..] == rest && s[0] == b as char;
      assert IsAttrChar(s[0]);
    } else {
      assert s[3..] == rest && s[0] == '%' && s[1] == HexDigit(b / 16) && s[2] == HexDigit(b % 16);
    }
  }

  /** Percent-decoding recovers the bytes. */
  lemma {:induction false} PercentReadsBack(bytes: Bytes)
    ensures ValueChars(PercentEncoded(bytes)) == Some((bytes, ""))
  {
    if bytes != [] {
      EncodedFront(bytes[0], bytes[1..]);
      assert [bytes[0]] + bytes[1..] == bytes;
      PercentReadsBack(bytes[1..]);
      OneByteReadsBack(bytes[0], PercentEncoded(bytes[1..]));
    }
  }

  lemma NameThenValue(name: string, value: string)
    requires name != "" && (forall i :: 0 <= i < |name| ==> IsTokenChar(name[i]))
    requires value != "" && value[0] != ' ' && value[0] != '\t'
    ensures ParseParameter(name + ("=" + value)) == ParseValue(name, value)
  {
    var s := name + ("=" + value);
    var after := "=" + value;
    TokenIs(name, after);
    assert s[..|name|] == name && s[|name|..] == after;
    assert after[1..] == value;
    assert SkipSpace(after) == after && SkipSpace(value) == value;
  }

  lemma ParameterIs(name: string, value: string, parameter: Parameter, rest: string)
    requires name != "" && (forall i :: 0 <= i < |name| ==> IsTokenChar(name[i]))
    requires value != "" && value[0] != ' ' && value[0] != '\t'
    requires ParseValue(name, value) == Some((parameter, rest))
    ensures ParseParameter(name + ("=" + value)) == Some((parameter, rest))
  {
    NameThenValue(name, value);
  }

  /** `filename="..."` */
  function QuotedText(ascii: string, rest: string): string {
    "filename" + ("=" + ("\"" + (ascii + ("\"" + rest))))
  }

  lemma QuotedParameter(ascii: string, rest: string)
    requires forall i :: 0 <= i < |ascii| ==> IsSafe(ascii[i])
    ensures ParseParameter(QuotedText(ascii, rest)) == Some((Plain("filename", ascii), rest))
  {
    var value := "\"" + (ascii + ("\"" + rest));
    assert value[1..] == ascii + ("\"" + rest);
    UnquoteSafe(ascii, rest);
    ParameterIs("filename", value, Plain("filename", ascii), rest);
  }

  lemma {:induction false} ApostropheIs(t: string, rest: string)
    requires '\'' !in t
    ensures UntilApostrophe(t + ("'" + rest)) == Some((t, rest))
  {
    var s := t + ("'" + rest);
    if t != "" {
      assert s[1..] == t[1..] + ("'" + rest);
      assert s[0] == t[0] && t[0] in t;
      ApostropheIs(t[1..], rest);
      assert [t[0]] + t[1..] == t;
    } else {
      assert s == "'" + rest;
      assert s[1..] == rest;
    }
  }

  /** `filename*=UTF-8''...` */
  function ExtendedText(bytes: Bytes): string {
    "filename*" + ("=" + ("UTF-8" + ("'" + ("'" + PercentEncoded(bytes)))))
  }

  lemma ExtendedValue(bytes: Bytes)
    ensures ParseExtended("filename*", "UTF-8" + ("'" + ("'" + PercentEncoded(bytes))))
      == Some((Extended("filename*", "UTF-8", "", bytes), ""))
  {
    var pct := PercentEncoded(bytes);
    ApostropheIs("UTF-8", "'" + pct);
    ApostropheIs("", pct);
    assert "" + ("'" + pct) == "'" + pct;
    PercentReadsBack(bytes);
  }

  lemma ExtendedParameter(bytes: Bytes)
    ensures ParseParameter(ExtendedText(bytes)) == Some((Extended("filename*", "UTF-8", "", bytes), ""))
  {
    var value := "UTF-8" + ("'" + ("'" + PercentEncoded(bytes)));
    ExtendedValue(bytes);
    assert "filename*"[8] == '*';
    ParameterIs("filename*", value, Extended("filename*", "UTF-8", "", bytes), "");
  }

  /** One parameter behind a semicolon and a space. */
  lemma ParametersFrom(s: string, parameter: Parameter, rest: string, others: seq<Parameter>)
    requires s != "" && s[0] != ' ' && s[0] != '\t'
    requires ParseParameter(s) == Some((parameter, rest)) && ParseParameters(rest) == Some(others)
    ensures ParseParameters("; " + s) == Some([parameter] + others)
  {
    var all := "; " + s;
    assert all[0] == ';' && all[1..] == " " + s;
    assert (" " + s)[1..] == s;
    assert SkipSpace(" " + s) == s;
    assert SkipSpace(all) == all;
  }

  lemma HeaderIs(disposition: string, s: string, parameters: seq<Parameter>)
    requires disposition != "" && (forall i :: 0 <= i < |disposition| ==> IsTokenChar(disposition[i]))
    requires s != "" && s[0] == ';' && ParseParameters(s) == Some(parameters)
    ensures ParseHeader(disposition + s) == Some((disposition, parameters))
  {
    var n := |disposition|;
    TokenIs(disposition, s);
    assert (disposition + s)[..n] == disposition && (disposition + s)[n..] == s;
  }

  lemma AttachmentIsToken()
    ensures forall i :: 0 <= i < |"attachment"| ==> IsTokenChar("attachment"[i])
  {
  }

  lemma HeaderFrom(s: string, parameters: seq<Parameter>)
    requires s != "" && s[0] == ';' && ParseParameters(s) == Some(parameters)
    ensures ParseHeader("attachment" + s) == Some(("attachment", parameters))
  {
    AttachmentIsToken();
    HeaderIs("attachment", s, parameters);
  }

  lemma Regroup(a: string, b: string, c: string, d: string, e: string, x: string)
    ensures (a + (b + (c + (d + e)))) + x == a + (b + (c + (d + (e + x))))
  {
  }

  lemma QuotedTextIs(ascii: string, rest: string)
    ensures "attachment; filename=\"" + ascii + "\"" + rest == "attachment" + ("; " + QuotedText(ascii, rest))
  {
    var x := ascii + ("\"" + rest);
    var literal := "attachment; filename=\"";
    assert literal == "attachment" + ("; " + ("filename" + ("=" + "\"")));
    Regroup("attachment", "; ", "filename", "=", "\"", x);
    Regroup("", "", literal, ascii, "\"", rest);
    assert "" + ("" + (literal + (ascii + "\""))) == literal + ascii + "\"";
    assert "" + ("" + (literal + (ascii + ("\"" + rest)))) == literal + x;
  }

  lemma ExtendedTextIs(bytes: Bytes)
    ensures "; filename*=UTF-8''" + PercentEncoded(bytes) == "; " + ExtendedText(bytes)
  {
    var pct := PercentEncoded(bytes);
    Regroup("; ", "filename*", "=", "UTF-8", "'" + "'", pct);
    assert "; filename*=UTF-8''" == "; " + ("filename*" + ("=" + ("UTF-8" + ("'" + "'"))));
    assert ("'" + "'") + pct == "'" + ("'" + pct);
  }

  lemma DispositionText(base: string)
    ensures AsciiFilename(base) == base ==>
      Disposition(base) == "attachment" + ("; " + QuotedText(base, ""))
    ensures AsciiFilename(base) != base ==>
      Disposition(base) == "attachment" + ("; " + QuotedText(AsciiFilename(base), "; " + ExtendedText(Utf8.Encode(base))))
  {
    if AsciiFilename(base) == base {
      QuotedTextIs(base, "");
    } else {
      var ascii, pct := AsciiFilename(base), PercentEncoded(Utf8.Encode(base));
      ExtendedTextIs(Utf8.Encode(base));
      QuotedTextIs(ascii, "; filename*=UTF-8''" + pct);
      Regroup("", "", "attachment; filename=\"" + ascii + "\"", "", "; filename*=UTF-8''", pct);
    }
  }

  lemma PlainHeader(base: string)
    requires AsciiFilename(base) == base
    ensures ParseHeader(Disposition(base)) == Some(("attachment", [Plain("filename", base)] + []))
  {
    QuotedNameIsSafe(base);
    QuotedParameter(base, "");
    ParametersFrom(QuotedText(base, ""), Plain("filename", base), "", []);
    HeaderFrom("; " + QuotedText(base, ""), [Plain("filename", base)] + []);
    DispositionText(base);
  }

  lemma ExtendedTail(bytes: Bytes)
    ensures ParseParameters("; " + ExtendedText(bytes)) == Some([Extended("filename*", "UTF-8", "", bytes)])
  {
    var last := Extended("filename*", "UTF-8", "", bytes);
    ExtendedParameter(bytes);
    ParametersFrom(ExtendedText(bytes), last, "", []);
    assert [last] + [] == [last];
  }

  lemma ExtendedHeader(base: string)
    requires AsciiFilename(base) != base
    ensures ParseHeader(Disposition(base)) ==
      Some(("attachment", [Plain("filename", AsciiFilename(base))]
                          + [Extended("filename*", "UTF-8", "", Utf8.Encode(base))]))
  {
    var ascii, bytes := AsciiFilename(base), Utf8.Encode(base);
    var first, last := Plain("filename", ascii), Extended("filename*", "UTF-8", "", bytes);
    var tail := "; " + ExtendedText(bytes);
    QuotedNameIsSafe(base);
    ExtendedTail(bytes);
    QuotedParameter(ascii, tail);
    ParametersFrom(QuotedText(ascii, tail), first, tail, [last]);
    HeaderFrom("; " + QuotedText(ascii, tail), [first] + [last]);
    DispositionText(base);
  }

  lemma FindFirst(first: Parameter, others: seq<Parameter>, name: string)
    ensures Find([first] + others, name) == if first.name == name then Some(first) else Find(others, name)
  {
    assert ([first] + others)[1..] == others;
  }

  /** For every uploaded name the recipient recovers exactly the base name. */
  lemma NameIsRecovered(base: string)
    ensures RecoveredName(Disposition(base)) == Some(base)
  {
    var first := Plain("filename", AsciiFilename(base));
    if AsciiFilename(base) == base {
      PlainHeader(base);
      FindFirst(first, [], "filename*");
      FindFirst(first, [], "filename");
    } else {
      var last := Extended("filename*", "UTF-8", "", Utf8.Encode(base));
      ExtendedHeader(base);
      FindFirst(first, [last], "filename*");
      FindFirst(last, [], "filename*");
      assert [last] + [] == [last];
      Utf8.RoundTrips(base);
    }
  }

  /** The percent-encoded name needs no quoting either. */
  lemma {:induction false} EncodedIsSafe(bytes: Bytes)
    ensures forall i :: 0 <= i < |PercentEncoded(bytes)| ==> IsSafe(PercentEncoded(bytes)[i])
  {
    if bytes != [] {
      EncodedIsSafe(bytes[..|bytes| - 1]);
    }
  }

  predicate IsPrintable(s: string) {
    forall i :: 0 <= i < |s| ==> ' ' <= s[i] <= '~'
  }

  lemma PrintableJoin(a: string, b: string)
    requires IsPrintable(a) && IsPrintable(b)
    ensures IsPrintable(a + b)
  {
  }

  /** Whatever was uploaded, the header value is printable ASCII. */
  lemma HeaderIsPrintable(base: string)
    ensures IsPrintable(Disposition(base))
  {
    var ascii := AsciiFilename(base);
    QuotedNameIsSafe(base);
    assert IsPrintable("attachment; filename=\"") && IsPrintable("; filename*=UTF-8''") && IsPrintable(ascii);
    PrintableJoin("attachment; filename=\"", ascii);
    PrintableJoin("attachment; filename=\"" + ascii, "\"");
    if ascii != base {
      var pct := PercentEncoded(Utf8.Encode(base));
      EncodedIsSafe(Utf8.Encode(base));
      PrintableJoin("attachment; filename=\"" + ascii + "\"", "; filename*=UTF-8''");
      PrintableJoin("attachment; filename=\"" + ascii + "\"" + "; filename*=UTF-8''", pct);
    }
  }
}
