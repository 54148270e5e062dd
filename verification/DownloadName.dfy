/** The name a download is offered under, and the header that carries it. */
module DownloadName {
  import opened Prelude
  import opened Content
  import Utf8

  // ----- The base name ------------------------------------------------------

  /** The parts of a path between slashes. */
  function Split(path: string): (parts: seq<string>)
    ensures parts != []
  {
    if path == [] then [""]
    else
      var before := Split(path[..|path| - 1]);
      var c := path[|path| - 1];
      if c == '/' then before + [""]
      else before[..|before| - 1] + [before[|before| - 1] + [c]]
  }

  /** The last part that names something; empty parts and "." do not. */
  function LastComponent(parts: seq<string>): Option<string> {
    if parts == [] then None
    else
      var last := parts[|parts| - 1];
      if last == "" || last == "." then LastComponent(parts[..|parts| - 1]) else Some(last)
  }

  /** A path ending in ".." names no file. */
  function FileName(path: string): Option<string> {
    match LastComponent(Split(path))
    case None => None
    case Some(last) => if last == ".." then None else Some(last)
  }

  datatype ArtifactRecord = ArtifactRecord(kind: string, sha256: string, originalFilename: Option<string>)

  function FallbackName(record: ArtifactRecord): string
    requires |record.sha256| >= 12
  {
    record.kind + "-" + record.sha256[..12] + ".bin"
  }

  function DownloadBasename(record: ArtifactRecord): string
    requires |record.sha256| >= 12
  {
    match record.originalFilename
    case None => FallbackName(record)
    case Some(name) =>
      match FileName(name)
      case None => FallbackName(record)
      case Some(base) => base
  }

  /** A file name without directories. */
  predicate IsPlainName(name: string) {
    name != "" && name != "." && name != ".." && '/' !in name
  }

  lemma {:induction false} SplitPlain(directory: string, name: string)
    requires '/' !in name
    ensures Split(directory + "/" + name) == Split(directory) + [name]
  {
    var path := directory + "/" + name;
    var n := |path| - 1;
    if name == "" {
      assert path[..n] == directory;
    } else {
      var shorter := name[..|name| - 1];
      assert path[..n] == directory + "/" + shorter;
      SplitPlain(directory, shorter);
      assert path[n] == name[|name| - 1];
      assert path[n] in name;
      assert shorter + [name[|name| - 1]] == name;
    }
  }

  lemma {:induction false} SplitAlone(name: string)
    requires '/' !in name
    ensures Split(name) == [name]
  {
    if name != "" {
      var n := |name| - 1;
      SplitAlone(name[..n]);
      assert name[n] in name;
      assert name[..n] + [name[n]] == name;
    }
  }

  lemma LastOf(parts: seq<string>, last: string)
    ensures LastComponent(parts + [last]) == if last == "" || last == "." then LastComponent(parts) else Some(last)
  {
    assert (parts + [last])[..|parts|] == parts;
  }

  lemma FileNameBehind(directory: string, name: string)
    requires '/' !in name
    ensures name != "" && name != "." && name != ".." ==> FileName(directory + "/" + name) == Some(name)
    ensures name == "" || name == "." ==> FileName(directory + "/" + name) == FileName(directory)
    ensures name == ".." ==> FileName(directory + "/" + name) == None
  {
    SplitPlain(directory, name);
    LastOf(Split(directory), name);
  }

  /** Whatever directories an uploaded name carries, a plain name behind them is
      offered exactly, also with a slash behind it. */
  lemma DirectoriesAreDropped(directory: string, name: string)
    requires IsPlainName(name)
    ensures FileName(name) == Some(name)
    ensures FileName(directory + "/" + name) == Some(name)
    ensures FileName(directory + "/" + name + "/" + "") == Some(name)
  {
    SplitAlone(name);
    LastOf([], name);
    assert [] + [name] == [name];
    FileNameBehind(directory, name);
    FileNameBehind(directory + "/" + name, "");
  }

  lemma {:induction false} PartsHaveNoSlash(path: string)
    ensures forall p :: p in Split(path) ==> '/' !in p
  {
    if path != [] {
      PartsHaveNoSlash(path[..|path| - 1]);
    }
  }

  lemma {:induction false} LastComponentIsAPart(parts: seq<string>)
    ensures LastComponent(parts).Some? ==>
      LastComponent(parts).value in parts && LastComponent(parts).value != "" && LastComponent(parts).value != "."
  {
    if parts != [] {
      LastComponentIsAPart(parts[..|parts| - 1]);
    }
  }

  /** No uploaded name leads outside a directory. */
  lemma NamesArePlain(path: string)
    ensures FileName(path).Some? ==> IsPlainName(FileName(path).value)
  {
    PartsHaveNoSlash(path);
    LastComponentIsAPart(Split(path));
  }

  /** The name offered is the last component of the one uploaded; without one, the
      kind and twelve digits of the digest. */
  lemma OfferedNameMeans(record: ArtifactRecord)
    requires |record.sha256| >= 12
    ensures record.originalFilename.Some? && FileName(record.originalFilename.value).Some? ==>
      DownloadBasename(record) == FileName(record.originalFilename.value).value
    ensures record.originalFilename.None? || FileName(record.originalFilename.value).None? ==>
      DownloadBasename(record) == record.kind + "-" + record.sha256[..12] + ".bin"
  {
  }

  // ----- The quoted name ----------------------------------------------------

  /** Printable ASCII other than the quote, the backslash and the semicolon. */
  predicate IsSafe(c: char) {
    ' ' <= c <= '~' && c != '"' && c != '\\' && c != ';'
  }

  function Sanitized(name: string): (s: string)
    ensures |s| == |name|
    ensures forall i :: 0 <= i < |name| ==> s[i] == if IsSafe(name[i]) then name[i] else '_'
  {
    seq(|name|, i requires 0 <= i < |name| => if IsSafe(name[i]) then name[i] else '_')
  }

  function TrimStart(s: string, c: char): string {
    if s != [] && s[0] == c then TrimStart(s[1..], c) else s
  }

  function TrimEnd(s: string, c: char): string {
    if s != [] && s[|s| - 1] == c then TrimEnd(s[..|s| - 1], c) else s
  }

  function Trim(s: string, c: char): string {
    TrimEnd(TrimStart(s, c), c)
  }

  /** Trims underscores, then spaces, the only white space that is safe. */
  function AsciiFilename(name: string): string {
    var s := Sanitized(name);
    if Trim(Trim(s, '_'), ' ') == "" then "download.bin" else s
  }

  lemma QuotedNameIsSafe(name: string)
    ensures AsciiFilename(name) != "" && forall i :: 0 <= i < |AsciiFilename(name)| ==> IsSafe(AsciiFilename(name)[i])
  {
    if Sanitized(name) == "" {
      assert Trim(Trim(Sanitized(name), '_'), ' ') == "";
    }
  }

  predicate OnlyHas(s: string, c: char) {
    forall i :: 0 <= i < |s| ==> s[i] == c
  }

  lemma {:induction false} TrimStartDrops(s: string, c: char) returns (i: nat)
    ensures i <= |s| && TrimStart(s, c) == s[i..] && OnlyHas(s[..i], c) && (i < |s| ==> s[i] != c)
  {
    if s != [] && s[0] == c {
      var rest := TrimStartDrops(s[1..], c);
      i := rest + 1;
      assert s[..i] == [c] + s[1..][..rest];
    } else {
      i := 0;
    }
  }

  lemma {:induction false} TrimEndDrops(s: string, c: char) returns (j: nat)
    ensures j <= |s| && TrimEnd(s, c) == s[..j] && OnlyHas(s[j..], c) && (j > 0 ==> s[j - 1] != c)
  {
    if s != [] && s[|s| - 1] == c {
      j := TrimEndDrops(s[..|s| - 1], c);
      assert s[j..] == s[..|s| - 1][j..] + [c];
    } else {
      j := |s|;
    }
  }

  lemma TrimsToNothing(s: string, c: char)
    ensures Trim(s, c) == "" <==> OnlyHas(s, c)
  {
    var i := TrimStartDrops(s, c);
    var j := TrimEndDrops(s[i..], c);
    assert s == s[..i] + s[i..];
    assert s[i..] == s[i..][..j] + s[i..][j..];
  }

  /** Nothing but underscores, and spaces between them at most once. */
  predicate IsFiller(s: string, i: nat, j: nat) {
    i <= j <= |s| && OnlyHas(s[..i], '_') && OnlyHas(s[i..j], ' ') && OnlyHas(s[j..], '_')
  }

  lemma TrimmedFiller(s: string)
    requires Trim(Trim(s, '_'), ' ') == ""
    ensures exists i, j :: IsFiller(s, i, j)
  {
    var i := TrimStartDrops(s, '_');
    var j := TrimEndDrops(s[i..], '_');
    TrimsToNothing(Trim(s, '_'), ' ');
    assert s[i..][..j] == s[i..i + j] && s[i..][j..] == s[i + j..];
    assert IsFiller(s, i, i + j);
  }

  lemma FillerIsTrimmed(s: string, i: nat, j: nat)
    requires IsFiller(s, i, j)
    ensures Trim(Trim(s, '_'), ' ') == ""
  {
    var n := TrimStartDrops(s, '_');
    var m := TrimEndDrops(s[n..], '_');
    if i == j {
      assert s == s[..i] + s[j..];
      TrimsToNothing(s, '_');
    } else {
      assert s[i] == s[i..j][0] == ' ' && s[j - 1] == s[i..j][j - i - 1] == ' ';
      assert forall k :: 0 <= k < i ==> s[k] == s[..i][k];
      assert forall k :: 0 <= k < n ==> s[k] == s[..n][k];
      assert forall k :: j <= k < |s| ==> s[k] == s[j..][k - j];
      assert forall k :: n + m <= k < |s| ==> s[k] == s[n..][m..][k - n - m];
      assert Trim(s, '_') == s[i..j];
    }
    TrimsToNothing(Trim(s, '_'), ' ');
  }

  /** Which characters may stand in the quoted name. */
  predicate IsQuotable(c: char) {
    0x20 <= c as int <= 0x7E && c !in {'"', '\\', ';'}
  }

  /** The quoted name keeps every character that may stand there and has an underscore
      for any other; a name of which that leaves only filler is "download.bin". */
  lemma AsciiNameMeans(name: string, a: string)
    requires |a| == |name| && forall k :: 0 <= k < |a| ==> a[k] == if IsQuotable(name[k]) then name[k] else '_'
    ensures AsciiFilename(name) == if exists i, j :: IsFiller(a, i, j) then "download.bin" else a
  {
    assert a == Sanitized(name);
    if Trim(Trim(a, '_'), ' ') == "" {
      TrimmedFiller(a);
    }
    if i, j :| IsFiller(a, i, j) {
      FillerIsTrimmed(a, i, j);
    }
  }

  // ----- Percent encoding ---------------------------------------------------

  predicate IsUnreserved(b: Byte) {
    'a' as int <= b <= 'z' as int || 'A' as int <= b <= 'Z' as int || '0' as int <= b <= '9' as int
    || b == '-' as int || b == '.' as int || b == '_' as int || b == '~' as int
  }

  function HexDigit(n: nat): char
    requires n < 16
  {
    if n < 10 then ('0' as int + n) as char else ('A' as int + (n - 10)) as char
  }

  function EncodedByte(b: Byte): string {
    if IsUnreserved(b) then [b as char] else ['%', HexDigit(b / 16), HexDigit(b % 16)]
  }

  function PercentEncoded(bytes: Bytes): string {
    if bytes == [] then "" else PercentEncoded(bytes[..|bytes| - 1]) + EncodedByte(bytes[|bytes| - 1])
  }

  const HEX_DIGITS := "0123456789ABCDEF"

  /** An unreserved byte stands for itself, any other as two upper-case digits. */
  lemma EncodedByteMeans(b: Byte)
    ensures
      var c := b as char;
      if 'a' <= c <= 'z' || 'A' <= c <= 'Z' || '0' <= c <= '9' || c in {'-', '.', '_', '~'} then EncodedByte(b) == [c]
      else EncodedByte(b) == ['%', HEX_DIGITS[b / 16], HEX_DIGITS[b % 16]]
  {
  }

  method PercentEncodeUtf8(name: string) returns (out: string)
    ensures out == PercentEncoded(Utf8.Encode(name))
  {
    var bytes := Utf8.Encode(name);
    out := "";
    for i := 0 to |bytes|
      invariant out == PercentEncoded(bytes[..i])
    {
      var b := bytes[i];
      if IsUnreserved(b) {
        out := out + [b as char];
      } else {
        out := out + ['%', HexDigit(b / 16), HexDigit(b % 16)];
      }
      assert bytes[..i + 1][..i] == bytes[..i];
    }
    assert bytes[..|bytes|] == bytes;
  }

  // ----- The header ---------------------------------------------------------

  function Disposition(base: string): string {
    var ascii := AsciiFilename(base);
    var plain := "attachment; filename=\"" + ascii + "\"";
    if ascii == base then plain else plain + "; filename*=UTF-8''" + PercentEncoded(Utf8.Encode(base))
  }

  method ContentDisposition(record: ArtifactRecord) returns (header: string)
    requires |record.sha256| >= 12
    ensures header == Disposition(DownloadBasename(record))
  {
    var original := DownloadBasename(record);
    var ascii := AsciiFilename(original);
    if ascii == original {
      header := "attachment; filename=\"" + ascii + "\"";
    } else {
      var encoded := PercentEncodeUtf8(original);
      header := "attachment; filename=\"" + ascii + "\"" + "; filename*=UTF-8''" + encoded;
    }
  }
}
