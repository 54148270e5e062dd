/** The opaque token that a page's cursor travels as. */
module CursorToken {
  import opened Prelude
  import opened Runs
  import Utf8
  import Base64Url

  /** The text forms of timestamps and ids. */
  datatype TextForms = TextForms(timeText: int -> string, parseTime: string -> Option<int>, parseId: string -> Option<string>)
  {
    ghost predicate Lawful() {
      forall t :: parseTime(timeText(t)) == Some(t) && '|' !in timeText(t)
    }

    predicate IsCanonicalId(id: string) {
      parseId(id) == Some(id)
    }
  }

  datatype InvalidCursor = NotBase64Url | NotUtf8 | MissingSeparator | BadTimestamp | BadRunId

  /** What precedes and what follows the first `separator`. */
  function SplitOnce(s: string, separator: char): Option<(string, string)> {
    if s == "" then None
    else if s[0] == separator then Some(("", s[1..]))
    else
      match SplitOnce(s[1..], separator)
      case None => None
      case Some((before, behind)) => Some(([s[0]] + before, behind))
  }

  function EncodeCursor(forms: TextForms, c: RunCursor): string {
    Base64Url.Encode(Utf8.Encode(forms.timeText(c.startedAt) + ("|" + c.id)))
  }

  function ParseFields(forms: TextForms, raw: string): Result<RunCursor, InvalidCursor> {
    match SplitOnce(raw, '|')
    case None => Err(MissingSeparator)
    case Some((time, id)) =>
      if forms.parseTime(time).None? then Err(BadTimestamp)
      else if forms.parseId(id).None? then Err(BadRunId)
      else Ok(RunCursor(forms.parseTime(time).value, forms.parseId(id).value))
  }

  function DecodeCursor(forms: TextForms, token: string): Result<RunCursor, InvalidCursor> {
    match Base64Url.Decode(token)
    case None => Err(NotBase64Url)
    case Some(bytes) =>
      match Utf8.Decode(bytes)
      case None => Err(NotUtf8)
      case Some(raw) => ParseFields(forms, raw)
  }

  lemma {:induction false} SplitsAtFirst(before: string, behind: string, separator: char)
    requires separator !in before
    ensures SplitOnce(before + ([separator] + behind), separator) == Some((before, behind))
  {
    var s := before + ([separator] + behind);
    if before == "" {
      assert s == [separator] + behind;
      assert s[1..] == behind;
    } else {
      assert s[0] == before[0] && before[0] in before;
      assert s[1..] == before[1..] + ([separator] + behind);
      SplitsAtFirst(before[1..], behind, separator);
      assert [before[0]] + before[1..] == before;
    }
  }

  lemma {:induction false} SplitJoins(s: string, separator: char)
    ensures
      match SplitOnce(s, separator)
      case None => separator !in s
      case Some((before, behind)) => separator !in before && s == before + ([separator] + behind)
  {
    if s != "" {
      SplitJoins(s[1..], separator);
      assert s == [s[0]] + s[1..];
    }
  }

  /** The token of a position decodes to it. */
  lemma CursorsRoundTrip(forms: TextForms, c: RunCursor)
    requires forms.Lawful() && forms.IsCanonicalId(c.id)
    ensures DecodeCursor(forms, EncodeCursor(forms, c)) == Ok(c)
  {
    var raw := forms.timeText(c.startedAt) + ("|" + c.id);
    Base64Url.DecodesEncoded(Utf8.Encode(raw));
    Utf8.RoundTrips(raw);
    SplitsAtFirst(forms.timeText(c.startedAt), c.id, '|');
  }

  /** `token` is the encoding of two readable fields around a separator. */
  ghost predicate Spells(forms: TextForms, token: string, time: string, id: string, c: RunCursor) {
    && token == Base64Url.Encode(Utf8.Encode(time + ("|" + id))) && '|' !in time
    && forms.parseTime(time) == Some(c.startedAt) && forms.parseId(id) == Some(c.id)
  }

  /** A token is accepted as a position if and only if it spells that position;
      everything else is an error. */
  lemma TokensDecodeExactly(forms: TextForms, token: string, c: RunCursor)
    ensures DecodeCursor(forms, token) == Ok(c) <==> exists time, id :: Spells(forms, token, time, id, c)
  {
    if time, id :| Spells(forms, token, time, id, c) {
      var raw := time + ("|" + id);
      Base64Url.DecodesEncoded(Utf8.Encode(raw));
      Utf8.RoundTrips(raw);
      SplitsAtFirst(time, id, '|');
    }
    if DecodeCursor(forms, token) == Ok(c) {
      var bytes := Base64Url.Decode(token).value;
      var raw := Utf8.Decode(bytes).value;
      Base64Url.EncodesDecoded(token);
      Utf8.EncodesDecoded(bytes);
      SplitJoins(raw, '|');
      var fields := SplitOnce(raw, '|').value;
      assert Spells(forms, token, fields.0, fields.1, c);
    }
  }

  /** Why a token is refused. */
  lemma RefusalsAreTrue(forms: TextForms, token: string)
    ensures
      match DecodeCursor(forms, token)
      case Ok(_) => true
      case Err(NotBase64Url) => forall bytes :: token != Base64Url.Encode(bytes)
      case Err(NotUtf8) => exists bytes :: token == Base64Url.Encode(bytes) && forall s :: bytes != Utf8.Encode(s)
      case Err(MissingSeparator) => exists raw :: token == Base64Url.Encode(Utf8.Encode(raw)) && '|' !in raw
      case Err(BadTimestamp) => exists time, id :: IsSplit(token, time, id) && forms.parseTime(time).None?
      case Err(BadRunId) => exists time, id ::
        IsSplit(token, time, id) && forms.parseTime(time).Some? && forms.parseId(id).None?
  {
    match Base64Url.Decode(token)
    case None =>
      forall bytes ensures token != Base64Url.Encode(bytes) {
        Base64Url.DecodesExactly(token, bytes);
      }
    case Some(bytes) =>
      Base64Url.EncodesDecoded(token);
      match Utf8.Decode(bytes)
      case None =>
        forall s ensures bytes != Utf8.Encode(s) {
          Utf8.DecodesExactly(bytes, s);
        }
      case Some(raw) =>
        Utf8.EncodesDecoded(bytes);
        SplitJoins(raw, '|');
        if SplitOnce(raw, '|').Some? {
          assert IsSplit(token, SplitOnce(raw, '|').value.0, SplitOnce(raw, '|').value.1);
        }
  }

  /** The token spells two fields, of which the first has no separator. */
  ghost predicate IsSplit(token: string, time: string, id: string) {
    token == Base64Url.Encode(Utf8.Encode(time + ("|" + id))) && '|' !in time
  }
}
