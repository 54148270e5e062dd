/** What the lines of a benchmark log are, said of their characters, and which logs
    are read, said of their lines. */
module LogMeaning {
  import opened Prelude
  import opened Decimal
  import opened LogText
  import opened LogParser

  // ----- Lines --------------------------------------------------------------

  function Glued(lines: seq<string>, ends: seq<string>): string
    requires |lines| == |ends|
  {
    if lines == [] then "" else lines[0] + ends[0] + Glued(lines[1..], ends[1..])
  }

  /** `end` may end `line`; only the last line may go without. */
  predicate EndsLine(line: string, end: string, last: bool) {
    && '\n' !in line
    && (end == "\r\n"
        || (end == "\n" && (line == "" || line[|line| - 1] != '\r'))
        || (end == "" && last && line != ""))
  }

  ghost predicate EndLines(lines: seq<string>, ends: seq<string>) {
    |lines| == |ends| && forall i :: 0 <= i < |lines| ==> EndsLine(lines[i], ends[i], i == |lines| - 1)
  }

  lemma FirstLine(line: string, end: string, rest: string)
    requires EndsLine(line, end, rest == "")
    ensures Lines(line + end + rest) == [line] + Lines(rest)
  {
    var text := line + end + rest;
    if end == "" {
      assert text == line && '\n' !in text;
    } else {
      var body := line + end[..|end| - 1];
      assert text == body + "\n" + rest;
      assert '\n' !in body && WithoutReturn(body) == line;
      FirstBody(body, rest);
    }
  }

  lemma FirstBody(body: string, rest: string)
    requires '\n' !in body
    ensures Lines(body + "\n" + rest) == [WithoutReturn(body)] + Lines(rest)
  {
    var text := body + "\n" + rest;
    assert text[..|body|] == body && text[|body|] == '\n' && text[|body| + 1..] == rest;
    LineEndIs(text, |body|);
  }

  lemma EndTail(lines: seq<string>, ends: seq<string>)
    requires lines != [] && EndLines(lines, ends)
    ensures EndLines(lines[1..], ends[1..]) && EndsLine(lines[0], ends[0], |lines| == 1)
    ensures Glued(lines[1..], ends[1..]) == "" <==> |lines| == 1
  {
    assert forall i :: 0 <= i < |lines| - 1 ==> lines[1..][i] == lines[i + 1] && ends[1..][i] == ends[i + 1];
    if |lines| > 1 {
      assert EndsLine(lines[1], ends[1], 1 == |lines| - 1);
    }
  }

  lemma {:induction false} LinesOfGlued(lines: seq<string>, ends: seq<string>)
    requires EndLines(lines, ends)
    ensures Lines(Glued(lines, ends)) == lines
  {
    if lines != [] {
      EndTail(lines, ends);
      LinesOfGlued(lines[1..], ends[1..]);
      FirstLine(lines[0], ends[0], Glued(lines[1..], ends[1..]));
    }
  }

  lemma {:induction false} TextIsGlued(text: string) returns (ends: seq<string>)
    ensures EndLines(Lines(text), ends) && text == Glued(Lines(text), ends)
  {
    var lines := Lines(text);
    if text == "" {
      ends := [];
    } else {
      var e := LineEnd(text, 0);
      if e == |text| {
        ends := [""];
      } else {
        var rest := TextIsGlued(text[e + 1..]);
        ends := [EndOf(text[..e])] + rest;
        FirstEnd(text, e);
        assert lines[1..] == Lines(text[e + 1..]) && ends[1..] == rest;
        PutFirst(lines, ends);
      }
    }
  }

  /** What ends a line whose characters up to the newline are `body`. */
  function EndOf(body: string): string {
    if WithoutReturn(body) == body then "\n" else "\r\n"
  }

  lemma BodyAndEnd(body: string)
    requires '\n' !in body
    ensures body + "\n" == WithoutReturn(body) + EndOf(body)
    ensures EndsLine(WithoutReturn(body), EndOf(body), false)
  {
    if WithoutReturn(body) != body {
      assert body == WithoutReturn(body) + "\r";
      assert body + "\n" == WithoutReturn(body) + ("\r" + "\n");
    }
  }

  lemma FirstEnd(text: string, e: nat)
    requires e < |text| && text[e] == '\n' && '\n' !in text[..e]
    ensures text == WithoutReturn(text[..e]) + EndOf(text[..e]) + text[e + 1..]
    ensures EndsLine(WithoutReturn(text[..e]), EndOf(text[..e]), false)
  {
    BodyAndEnd(text[..e]);
    assert text == (text[..e] + "\n") + text[e + 1..];
  }

  lemma PutFirst(lines: seq<string>, ends: seq<string>)
    requires |lines| == |ends| > 0
    requires EndsLine(lines[0], ends[0], false) && EndLines(lines[1..], ends[1..])
    ensures EndLines(lines, ends)
  {
    forall i | 0 <= i < |lines| ensures EndsLine(lines[i], ends[i], i == |lines| - 1) {
      if i > 0 {
        assert EndsLine(lines[1..][i - 1], ends[1..][i - 1], i - 1 == |lines[1..]| - 1);
      }
    }
  }

  /** The lines of a text are what it is made of once each is ended by a newline, with
      or without a carriage return before it; the last one may go without. */
  lemma LinesAre(text: string, lines: seq<string>)
    ensures Lines(text) == lines <==> exists ends :: EndLines(lines, ends) && text == Glued(lines, ends)
  {
    if Lines(text) == lines {
      var ends := TextIsGlued(text);
    }
    if ends :| EndLines(lines, ends) && text == Glued(lines, ends) {
      LinesOfGlued(lines, ends);
    }
  }

  // ----- One line -----------------------------------------------------------

  /** Delimited, and split at its last " rep". */
  ghost predicate IsMarkerText(line: string, tag: string, digits: string) {
    && line == "=== " + (tag + " rep" + digits) + " ==="
    && forall i :: |tag| < i ==> !OccursAt(tag + " rep" + digits, " rep", i)
  }

  /** Delimited, without any " rep". */
  ghost predicate IsTrailerText(line: string) {
    exists inner :: IsTrailerOf(line, inner)
  }

  ghost predicate IsTrailerOf(line: string, inner: string) {
    line == "=== " + inner + " ===" && forall i :: !OccursAt(inner, " rep", i)
  }

  predicate IsObserverText(line: string, payload: string) {
    line == "PyTorchObserver " + payload
  }

  predicate IsBlankText(line: string) {
    forall i :: 0 <= i < |line| ==>
      line[i] as int in {0x9, 0xA, 0xB, 0xC, 0xD, 0x20, 0x85, 0xA0, 0x1680,
                         0x2000, 0x2001, 0x2002, 0x2003, 0x2004, 0x2005, 0x2006, 0x2007, 0x2008, 0x2009, 0x200A,
                         0x2028, 0x2029, 0x202F, 0x205F, 0x3000}
  }

  lemma InnerOfDelimited(inner: string)
    ensures Inner("=== " + inner + " ===") == Some(inner)
  {
    var line := "=== " + inner + " ===";
    assert line[4..] == inner + " ===";
    assert (inner + " ===")[|inner|..] == " ===" && (inner + " ===")[..|inner|] == inner;
  }

  lemma DelimitedIsInner(line: string)
    requires Inner(line).Some?
    ensures line == "=== " + Inner(line).value + " ==="
  {
    var rest := line[4..];
    assert line == line[..4] + rest && line[..4] == "=== ";
    assert rest == rest[..|rest| - 4] + rest[|rest| - 4..];
  }

  lemma MarkerTextIsMarker(line: string, tag: string, digits: string)
    requires IsMarkerText(line, tag, digits)
    ensures Classify(line) == Marker(tag, ParseI64(digits))
  {
    var inner := tag + " rep" + digits;
    InnerOfDelimited(inner);
    assert inner[|tag|..|tag| + 4] == " rep";
    assert OccursAt(inner, " rep", |tag|);
    assert inner[..|tag|] == tag && inner[|tag| + 4..] == digits;
  }

  lemma MarkerIsMarkerText(line: string) returns (digits: string)
    requires Classify(line).Marker?
    ensures IsMarkerText(line, Classify(line).tag, digits) && Classify(line).rep == ParseI64(digits)
  {
    var inner := Inner(line).value;
    DelimitedIsInner(line);
    var i := LastOccurrence(inner, " rep", |inner| + 1).value;
    digits := inner[i + 4..];
    SplitAround(inner, i);
  }

  lemma SplitAround(s: string, i: nat)
    requires OccursAt(s, " rep", i)
    ensures s == s[..i] + " rep" + s[i + 4..]
  {
    assert s == s[..i] + s[i..i + 4] + s[i + 4..];
  }

  lemma TrailerTextIsTrailer(line: string)
    ensures IsTrailerText(line) <==> Classify(line) == Trailer
  {
    if IsTrailerText(line) {
      var inner :| IsTrailerOf(line, inner);
      InnerOfDelimited(inner);
    }
    if Classify(line) == Trailer {
      DelimitedIsInner(line);
      assert IsTrailerOf(line, Inner(line).value);
    }
  }

  lemma ObserverTextIsObserver(line: string, payload: string)
    ensures IsObserverText(line, payload) <==> Classify(line) == ObserverLine(line, payload)
  {
    if IsObserverText(line, payload) {
      assert line[0] == 'P' && line[16..] == payload;
      assert "PyTorchObserver " <= line;
    }
  }

  lemma BlankTextIsBlank(line: string)
    ensures IsBlankText(line) <==> Classify(line) == BlankLine
  {
    if line != "" {
      assert Inner(line).Some? ==> line[0] == '=';
      assert "PyTorchObserver " <= line ==> line[0] == 'P';
      assert IsBlankText(line) ==> line[0] as int <= 0x20 || line[0] as int >= 0x85;
    }
  }

  // ----- A log --------------------------------------------------------------

  ghost predicate IsMarkerLine(line: string) {
    exists tag, digits :: IsMarkerText(line, tag, digits)
  }

  /** Only blank lines stand between the line and a marker before it. */
  ghost predicate FollowsMarker(lines: seq<string>, i: nat)
    requires i < |lines|
  {
    exists m :: 0 <= m < i && IsLastMarker(lines, m, i)
  }

  ghost predicate IsLastMarker(lines: seq<string>, m: nat, i: nat)
    requires m < i < |lines|
  {
    IsMarkerLine(lines[m]) && forall k :: m < k < i ==> IsBlankText(lines[k])
  }

  /** What a line of an accepted log is. */
  ghost predicate IsAcceptable(lines: seq<string>, i: nat, json: JsonReader)
    requires i < |lines|
  {
    || (exists tag, digits, n :: IsMarkerText(lines[i], tag, digits) && IsNumber(digits, n))
    || IsTrailerText(lines[i]) || IsBlankText(lines[i])
    || (FollowsMarker(lines, i) && exists payload :: IsObserverText(lines[i], payload) && json(payload).Some?)
  }

  /** What the reported reason says of the line. */
  ghost predicate IsReason(lines: seq<string>, i: nat, json: JsonReader, reason: Reason)
    requires i < |lines|
  {
    match reason
    case BadRepetition =>
      exists tag, digits :: IsMarkerText(lines[i], tag, digits) && forall n :: !IsNumber(digits, n)
    case NoMarker => !FollowsMarker(lines, i) && exists payload :: IsObserverText(lines[i], payload)
    case BadJson => FollowsMarker(lines, i) && exists payload :: IsObserverText(lines[i], payload) && json(payload).None?
    case UnrecognizedLine =>
      && !IsMarkerLine(lines[i]) && !IsTrailerText(lines[i]) && !IsBlankText(lines[i])
      && forall payload :: !IsObserverText(lines[i], payload)
  }

  lemma MarkerLines(line: string)
    ensures IsMarkerLine(line) <==> Classify(line).Marker?
  {
    if tag, digits :| IsMarkerText(line, tag, digits) {
      MarkerTextIsMarker(line, tag, digits);
    }
    if Classify(line).Marker? {
      var digits := MarkerIsMarkerText(line);
    }
  }

  lemma LastMarkerAnswers(lines: seq<string>, m: nat, i: nat)
    requires m < i < |lines| && Classify(lines[i]).ObserverLine?
    ensures IsLastMarker(lines, m, i) <==> Answers(Kinds(lines), m, i)
  {
    var kinds := Kinds(lines);
    MarkerLines(lines[m]);
    forall k | m < k < i ensures IsBlankText(lines[k]) <==> kinds[k].BlankLine? {
      BlankTextIsBlank(lines[k]);
    }
  }

  lemma FollowsMeans(lines: seq<string>, i: nat)
    requires i < |lines| && Classify(lines[i]).ObserverLine?
    ensures FollowsMarker(lines, i) <==> exists m :: Answers(Kinds(lines), m, i)
  {
    forall m | 0 <= m < i ensures IsLastMarker(lines, m, i) <==> Answers(Kinds(lines), m, i) {
      LastMarkerAnswers(lines, m, i);
    }
  }

  lemma NumbersMean(digits: string)
    ensures ParseI64(digits).None? <==> forall n :: !IsNumber(digits, n)
  {
    if ParseI64(digits).Some? {
      ParsesExactly(digits, ParseI64(digits).value);
    } else if n :| IsNumber(digits, n) {
      ParsesExactly(digits, n);
    }
  }

  lemma AcceptableMeans(lines: seq<string>, i: nat, json: JsonReader)
    requires i < |lines|
    ensures LineOk(Kinds(lines), i, json) <==> IsAcceptable(lines, i, json)
  {
    var line := lines[i];
    TrailerTextIsTrailer(line);
    BlankTextIsBlank(line);
    if tag, digits, n :| IsMarkerText(line, tag, digits) && IsNumber(digits, n) {
      MarkerTextIsMarker(line, tag, digits);
      ParsesExactly(digits, n);
    }
    if payload :| IsObserverText(line, payload) {
      ObserverTextIsObserver(line, payload);
      FollowsMeans(lines, i);
    }
    match Classify(line)
    case Marker(tag, rep) =>
      var digits := MarkerIsMarkerText(line);
      NumbersMean(digits);
    case ObserverLine(_, payload) =>
      ObserverTextIsObserver(line, payload);
      FollowsMeans(lines, i);
    case _ =>
  }

  lemma ReasonMeans(lines: seq<string>, i: nat, json: JsonReader, reason: Reason)
    requires i < |lines| && Explains(Kinds(lines), i, json, reason)
    ensures IsReason(lines, i, json, reason)
  {
    var line := lines[i];
    match Classify(line)
    case Marker(tag, rep) =>
      var digits := MarkerIsMarkerText(line);
      NumbersMean(digits);
    case ObserverLine(_, payload) =>
      ObserverTextIsObserver(line, payload);
      FollowsMeans(lines, i);
    case Unrecognized =>
      MarkerLines(line);
      TrailerTextIsTrailer(line);
      BlankTextIsBlank(line);
      forall payload ensures !IsObserverText(line, payload) {
        ObserverTextIsObserver(line, payload);
      }
    case _ =>
  }

  ghost predicate AllAcceptable(lines: seq<string>, n: nat, json: JsonReader)
    requires n <= |lines|
  {
    forall i :: 0 <= i < n ==> IsAcceptable(lines, i, json)
  }

  lemma AcceptableUpTo(lines: seq<string>, n: nat, json: JsonReader)
    requires n <= |lines|
    ensures LinesOk(Kinds(lines), n, json) <==> AllAcceptable(lines, n, json)
  {
    forall i | 0 <= i < n ensures LineOk(Kinds(lines), i, json) <==> IsAcceptable(lines, i, json) {
      AcceptableMeans(lines, i, json);
    }
  }

  /** Which logs are read: those of whose lines each is a numbered marker, a trailer,
      blank, or an observer line behind a marker.  Any other log is refused at its
      first line that is none of these, for the reason that holds of it. */
  lemma ReadsExactly(text: string, json: JsonReader, r: Result<seq<Record>, ParseError>)
    requires Parses(Kinds(Lines(text)), json, r)
    ensures
      var lines := Lines(text);
      match r
      case Ok(_) => AllAcceptable(lines, |lines|, json)
      case Err(e) =>
        && 1 <= e.lineNumber <= |lines| && !IsAcceptable(lines, e.lineNumber - 1, json)
        && AllAcceptable(lines, e.lineNumber - 1, json)
        && IsReason(lines, e.lineNumber - 1, json, e.reason)
  {
    var lines := Lines(text);
    match r
    case Ok(_) => AcceptableUpTo(lines, |lines|, json);
    case Err(e) =>
      AcceptableUpTo(lines, e.lineNumber - 1, json);
      AcceptableMeans(lines, e.lineNumber - 1, json);
      ReasonMeans(lines, e.lineNumber - 1, json, e.reason);
  }
}
