/** The text of a benchmark log: its lines, and what each line is. */
module LogText {
  import opened Prelude
  import opened Decimal

  /** The position of the first newline at or after `i`. */
  function LineEnd(text: string, i: nat): (e: nat)
    requires i <= |text|
    ensures i <= e <= |text|
    ensures forall k :: i <= k < e ==> text[k] != '\n'
    ensures e < |text| ==> text[e] == '\n'
    decreases |text| - i
  {
    if i == |text| || text[i] == '\n' then i else LineEnd(text, i + 1)
  }

  function WithoutReturn(line: string): string {
    if line != [] && line[|line| - 1] == '\r' then line[..|line| - 1] else line
  }

  /** Lines end at a newline, which may be preceded by a carriage return; the
      last line needs no end. */
  function Lines(text: string): seq<string> {
    if text == [] then []
    else
      var e := LineEnd(text, 0);
      if e == |text| then [text] else [WithoutReturn(text[..e])] + Lines(text[e + 1..])
  }

  function Joined(lines: seq<string>): string {
    if lines == [] then [] else lines[0] + "\n" + Joined(lines[1..])
  }

  /** A line that printing and splitting give back. */
  predicate IsPlainLine(line: string) {
    '\n' !in line && (line != [] ==> line[|line| - 1] != '\r')
  }

  lemma LineEndIs(text: string, e: nat)
    requires e < |text| && text[e] == '\n' && '\n' !in text[..e]
    ensures LineEnd(text, 0) == e
  {
    forall k | 0 <= k < e ensures text[k] != '\n' {
      assert text[k] == text[..e][k];
    }
  }

  lemma LinesOfOne(line: string, rest: string)
    requires IsPlainLine(line)
    ensures Lines(line + "\n" + rest) == [line] + Lines(rest)
  {
    var text := line + "\n" + rest;
    var e := |line|;
    assert text[..e] == line && text[e] == '\n' && text[e + 1..] == rest;
    LineEndIs(text, e);
  }

  lemma {:induction false} LinesOfJoined(lines: seq<string>)
    requires forall i :: 0 <= i < |lines| ==> IsPlainLine(lines[i])
    ensures Lines(Joined(lines)) == lines
  {
    if lines != [] {
      LinesOfOne(lines[0], Joined(lines[1..]));
      LinesOfJoined(lines[1..]);
    }
  }

  // ----- Lines --------------------------------------------------------------

  function StripPrefix(s: string, prefix: string): Option<string> {
    if prefix <= s then Some(s[|prefix|..]) else None
  }

  function StripSuffix(s: string, suffix: string): Option<string> {
    if |suffix| <= |s| && s[|s| - |suffix|..] == suffix then Some(s[..|s| - |suffix|]) else None
  }

  predicate OccursAt(s: string, sep: string, i: int) {
    0 <= i <= |s| - |sep| && s[i..i + |sep|] == sep
  }

  /** The last occurrence of `sep` that starts before `n`. */
  function LastOccurrence(s: string, sep: string, n: nat): (at: Option<nat>)
    ensures at.Some? ==> at.value < n && OccursAt(s, sep, at.value)
    ensures forall i :: (if at.Some? then at.value + 1 else 0) <= i < n ==> !OccursAt(s, sep, i)
  {
    if n == 0 then None
    else if OccursAt(s, sep, n - 1) then Some(n - 1)
    else LastOccurrence(s, sep, n - 1)
  }

  /** Splits at the last occurrence of `sep`. */
  function RsplitOnce(s: string, sep: string): Option<(string, string)> {
    match LastOccurrence(s, sep, |s| + 1)
    case None => None
    case Some(i) => Some((s[..i], s[i + |sep|..]))
  }

  /** The characters that Unicode calls White_Space. */
  predicate IsWhitespace(c: char) {
    var n := c as int;
    9 <= n <= 13 || n == 0x20 || n == 0x85 || n == 0xA0 || n == 0x1680 || 0x2000 <= n <= 0x200A
    || n == 0x2028 || n == 0x2029 || n == 0x202F || n == 0x205F || n == 0x3000
  }

  /** Whether trimming leaves nothing. */
  predicate IsBlank(line: string) {
    forall i :: 0 <= i < |line| ==> IsWhitespace(line[i])
  }

  datatype LineKind =
    | Marker(tag: string, rep: Option<int>)
    | Trailer
    | ObserverLine(line: string, json: string)
    | BlankLine
    | Unrecognized

  /** What stands between the delimiters of a marker or trailer. */
  function Inner(line: string): Option<string> {
    match StripPrefix(line, "=== ")
    case None => None
    case Some(l) => StripSuffix(l, " ===")
  }

  function DelimiterKind(inner: string): LineKind {
    match RsplitOnce(inner, " rep")
    case Some((tag, rep)) => Marker(tag, ParseI64(rep))
    case None => Trailer
  }

  function Classify(line: string): LineKind {
    match Inner(line)
    case Some(inner) => DelimiterKind(inner)
    case None =>
      match StripPrefix(line, "PyTorchObserver ")
      case Some(json) => ObserverLine(line, json)
      case None => if IsBlank(line) then BlankLine else Unrecognized
  }

  function Kinds(lines: seq<string>): (kinds: seq<LineKind>)
    ensures |kinds| == |lines| && forall i :: 0 <= i < |lines| ==> kinds[i] == Classify(lines[i])
  {
    seq(|lines|, i requires 0 <= i < |lines| => Classify(lines[i]))
  }

  // ----- Printing -----------------------------------------------------------

  function MarkerLine(tag: string, rep: int): string {
    "=== " + tag + " rep" + IntText(rep) + " ==="
  }

  lemma InnerOfMarker(tag: string, rep: int)
    ensures Inner(MarkerLine(tag, rep)) == Some(tag + " rep" + IntText(rep))
  {
    var line := MarkerLine(tag, rep);
    var body := tag + " rep" + IntText(rep);
    assert line == "=== " + (body + " ===");
    assert line[4..] == body + " ===";
    assert (body + " ===")[|body|..] == " ===" && (body + " ===")[..|body|] == body;
  }

  /** The last " rep" is the printer's own, whatever the tag contains. */
  lemma RsplitOfPrinted(tag: string, rep: int)
    ensures RsplitOnce(tag + " rep" + IntText(rep), " rep") == Some((tag, IntText(rep)))
  {
    var digits := IntText(rep);
    var s := tag + " rep" + digits;
    IntTextCharacters(rep);
    assert s[|tag|..|tag| + 4] == " rep";
    assert OccursAt(s, " rep", |tag|);
    forall i | |tag| < i < |s| + 1 ensures !OccursAt(s, " rep", i) {
      if i + 4 <= |s| {
        assert s[i] != ' ';
        assert s[i..i + 4][0] == s[i];
      }
    }
    assert s[..|tag|] == tag && s[|tag| + 4..] == digits;
  }

  lemma MarkerLineIsMarker(tag: string, rep: int)
    requires IsI64(rep)
    ensures Classify(MarkerLine(tag, rep)) == Marker(tag, Some(rep))
  {
    InnerOfMarker(tag, rep);
    RsplitOfPrinted(tag, rep);
    IntTextRoundTrips(rep);
  }

  lemma MarkerLineIsPlain(tag: string, rep: int)
    requires '\n' !in tag
    ensures IsPlainLine(MarkerLine(tag, rep))
  {
    IntTextCharacters(rep);
    var line := MarkerLine(tag, rep);
    assert line[|line| - 1] == '=';
  }
}
