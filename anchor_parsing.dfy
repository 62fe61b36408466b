/** Reading the four anchor points of monte_carlo_simulator_catching.py:
    `parse_points_arg` for the `--points` option and the piped-stdin branch
    of `main`. `float()` is a parameter: a partial function from text to a
    number, `None` where it raises ValueError. */
module AnchorParsing {
  import opened Wrappers
  import opened PyText

  datatype AnchorPoint = AnchorPoint(x: real, y: real, signal: real)

  /** The ValueErrors the two readers raise. */
  datatype ParseError =
    | WrongPointCount          // not exactly 4 non-blank `;`-separated parts
    | MalformedTriplet         // a part without exactly 3 non-blank fields
    | MalformedLine            // a stdin line without exactly 3 tokens
    | NotANumber(text: string) // `float(text)` raised

  type NumberParser = string -> Option<real>

  /** `AnchorPoint(float(f0), float(f1), float(f2))`: the three conversions
      run left to right and the first that fails raises. */
  function ToAnchor(fields: seq<string>, parse: NumberParser): (r: Result<AnchorPoint, ParseError>)
    requires |fields| == 3
    ensures r.Success? <==> forall k :: 0 <= k < 3 ==> parse(fields[k]).Some?
    ensures r.Success? ==>
      r.value == AnchorPoint(parse(fields[0]).value, parse(fields[1]).value, parse(fields[2]).value)
    ensures r.Failure? ==> exists k :: 0 <= k < 3 && FirstUnparsable(fields, parse, k) && r.error == NotANumber(fields[k])
  {
    var x, y, s := parse(fields[0]), parse(fields[1]), parse(fields[2]);
    if x.None? then Failure(NotANumber(fields[0]))
    else if y.None? then Failure(NotANumber(fields[1]))
    else if s.None? then Failure(NotANumber(fields[2]))
    else Success(AnchorPoint(x.value, y.value, s.value))
  }

  ghost predicate FirstUnparsable(fields: seq<string>, parse: NumberParser, k: nat)
  {
    k < |fields| && parse(fields[k]).None? && forall j :: 0 <= j < k ==> parse(fields[j]).Some?
  }

  /** `[p.strip() for p in points_arg.split(";") if p.strip()]`. */
  function Parts(arg: string): seq<string>
  {
    StrippedNonBlank(Split(arg, ';'))
  }

  /** `[c.strip() for c in part.replace(" ", "").split(",") if c.strip()]`:
      blank fields are dropped, not rejected. */
  function Fields(part: string): seq<string>
  {
    StrippedNonBlank(Split(RemoveSpaces(part), ','))
  }

  /** Every field that survives is non-empty and holds neither a comma nor
      a space. */
  lemma FieldsWellFormed(part: string)
    ensures forall i :: 0 <= i < |Fields(part)| ==>
      Fields(part)[i] != [] && ',' !in Fields(part)[i] && ' ' !in Fields(part)[i]
  {
    var pieces := Split(RemoveSpaces(part), ',');
    StrippedNonBlankKeeps(pieces);
    StrippedNonBlankShape(pieces);
    SplitPieces(RemoveSpaces(part), ',');
    RemoveSpacesChars(part);
    var kept := NonBlank(pieces);
    forall i | 0 <= i < |Fields(part)|
      ensures ',' !in Fields(part)[i] && ' ' !in Fields(part)[i]
    {
      assert Fields(part)[i] == Strip(kept[i]);
      StripChars(kept[i]);
      assert kept[i] in pieces;
      var j :| 0 <= j < |pieces| && pieces[j] == kept[i];
      assert forall c :: c in pieces[j] ==> c in RemoveSpaces(part) && c != ',';
    }
  }

  /** One pass of the loop of `parse_points_arg`. */
  function ParseTriplet(part: string, parse: NumberParser): (r: Result<AnchorPoint, ParseError>)
  {
    var coords := Fields(part);
    if |coords| != 3 then Failure(MalformedTriplet) else ToAnchor(coords, parse)
  }

  /** `parts[i]` is the first part that fails to parse, with `error`. */
  ghost predicate FirstBadTriplet(parts: seq<string>, parse: NumberParser, i: nat, error: ParseError)
  {
    && i < |parts|
    && ParseTriplet(parts[i], parse) == Failure(error)
    && forall j :: 0 <= j < i ==> ParseTriplet(parts[j], parse).Success?
  }

  /** `parse_points_arg`. */
  method ParsePointsArg(arg: string, parse: NumberParser) returns (r: Result<seq<AnchorPoint>, ParseError>)
    ensures |Parts(arg)| != 4 ==> r == Failure(WrongPointCount)
    ensures r.Success? ==>
      && |Parts(arg)| == 4 && |r.value| == 4
      && forall i :: 0 <= i < 4 ==> ParseTriplet(Parts(arg)[i], parse) == Success(r.value[i])
    ensures |Parts(arg)| == 4 && (forall i :: 0 <= i < 4 ==> ParseTriplet(Parts(arg)[i], parse).Success?)
      ==> r.Success?
    ensures r.Failure? && |Parts(arg)| == 4 ==> exists i :: FirstBadTriplet(Parts(arg), parse, i, r.error)
  {
    var parts := Parts(arg);
    if |parts| != 4 {
      return Failure(WrongPointCount);
    }
    var anchors: seq<AnchorPoint> := [];
    for i := 0 to |parts|
      invariant |anchors| == i
      invariant forall j :: 0 <= j < i ==> ParseTriplet(parts[j], parse) == Success(anchors[j])
    {
      var anchor := ParseTriplet(parts[i], parse);
      if anchor.Failure? {
        assert FirstBadTriplet(parts, parse, i, anchor.error);
        return Failure(anchor.error);
      }
      anchors := anchors + [anchor.value];
    }
    return Success(anchors);
  }

  /** One anchor written as `x,y,signal` with the number printer `show`. */
  function FormatTriplet(a: AnchorPoint, show: real -> string): string
  {
    Join([show(a.x), show(a.y), show(a.signal)], ',')
  }

  /** Anchors written in the `--points` format. */
  function FormatPoints(anchors: seq<AnchorPoint>, show: real -> string): string
    requires |anchors| >= 1
  {
    Join(FormatTriplets(anchors, show), ';')
  }

  function FormatTriplets(anchors: seq<AnchorPoint>, show: real -> string): (r: seq<string>)
    ensures |r| == |anchors| && forall i :: 0 <= i < |anchors| ==> r[i] == FormatTriplet(anchors[i], show)
  {
    if anchors == [] then [] else [FormatTriplet(anchors[0], show)] + FormatTriplets(anchors[1..], show)
  }

  /** Text `float()` can read as one field: non-empty, without whitespace,
      comma or semicolon. */
  predicate PlainToken(s: string)
  {
    s != [] && ',' !in s && ';' !in s && forall k :: 0 <= k < |s| ==> !IsSpace(s[k])
  }

  /** `float()` reads back what `show` prints for `v`, and the printed
      text is a plain token. */
  ghost predicate ReadsBack(show: real -> string, parse: NumberParser, v: real)
  {
    parse(show(v)) == Some(v) && PlainToken(show(v))
  }

  /** The three numbers of `a` are printed so that `float()` reads them back. */
  ghost predicate AnchorReadsBack(show: real -> string, parse: NumberParser, a: AnchorPoint)
  {
    ReadsBack(show, parse, a.x) && ReadsBack(show, parse, a.y) && ReadsBack(show, parse, a.signal)
  }

  /** Three plain tokens joined by commas survive the space removal, split
      and strip of `parse_points_arg` unchanged. */
  lemma JoinedTokens(sx: string, sy: string, ss: string)
    requires PlainToken(sx) && PlainToken(sy) && PlainToken(ss)
    ensures var t := Join([sx, sy, ss], ',');
      && StrippedPiece(t) && ';' !in t
      && Fields(t) == [sx, sy, ss]
  {
    var t := Join([sx, sy, ss], ',');
    assert [sx, sy, ss][1..] == [sy, ss] && [sy, ss][1..] == [ss];
    assert Join([ss], ',') == ss;
    assert Join([sy, ss], ',') == sy + [','] + ss;
    assert t == sx + [','] + Join([sy, ss], ',');
    assert t == sx + [','] + (sy + [','] + ss);
    assert t[0] == sx[0] && t[|t| - 1] == ss[|ss| - 1];
    assert ' ' !in t by {
      assert IsSpace(' ');
    }
    RemoveSpacesUnchanged(t);
    SplitJoin([sx, sy, ss], ',');
    StrippedNonBlankUnchanged([sx, sy, ss]);
  }

  /** One anchor written with a printer `float()` reads back parses to
      itself. */
  lemma TripletShape(a: AnchorPoint, show: real -> string, parse: NumberParser)
    requires AnchorReadsBack(show, parse, a)
    ensures var t := FormatTriplet(a, show);
      StrippedPiece(t) && ';' !in t
    ensures ParseTriplet(FormatTriplet(a, show), parse) == Success(a)
  {
    var sx, sy, ss := show(a.x), show(a.y), show(a.signal);
    assert PlainToken(sx) && PlainToken(sy) && PlainToken(ss);
    assert parse(sx) == Some(a.x) && parse(sy) == Some(a.y) && parse(ss) == Some(a.signal);
    JoinedTokens(sx, sy, ss);
    assert FormatTriplet(a, show) == Join([sx, sy, ss], ',');
    assert ToAnchor([sx, sy, ss], parse) == Success(a);
  }

  /** Writing four anchors in the `--points` format and reading them back
      gives the same anchors, in order. */
  lemma PointsRoundTrip(anchors: seq<AnchorPoint>, show: real -> string, parse: NumberParser)
    requires |anchors| == 4
    requires forall i :: 0 <= i < 4 ==> AnchorReadsBack(show, parse, anchors[i])
    ensures Parts(FormatPoints(anchors, show)) == FormatTriplets(anchors, show)
    ensures forall i :: 0 <= i < 4 ==>
      ParseTriplet(Parts(FormatPoints(anchors, show))[i], parse) == Success(anchors[i])
  {
    var ts := FormatTriplets(anchors, show);
    forall i | 0 <= i < 4
      ensures StrippedPiece(ts[i]) && ';' !in ts[i]
      ensures ParseTriplet(ts[i], parse) == Success(anchors[i])
    {
      TripletShape(anchors[i], show, parse);
    }
    SplitJoin(ts, ';');
    StrippedNonBlankUnchanged(ts);
  }

  /** One line of piped stdin: `tokens = [t for t in line.split() if t]`. */
  function ParseLine(line: string, parse: NumberParser): (r: Result<AnchorPoint, ParseError>)
  {
    var tokens := Words(line);
    if |tokens| != 3 then Failure(MalformedLine) else ToAnchor(tokens, parse)
  }

  /** What the piped-stdin branch of `main` does: fewer than four
      non-blank lines fall back to interactive reading, otherwise the first
      four give the anchors or raise. */
  datatype StdinOutcome =
    | ReadInteractively
    | Parsed(anchors: seq<AnchorPoint>)
    | Rejected(error: ParseError)

  /** `lines[i]` is the first line that fails to parse, with `error`. */
  ghost predicate FirstBadLine(lines: seq<string>, parse: NumberParser, i: nat, error: ParseError)
  {
    && i < |lines|
    && ParseLine(lines[i], parse) == Failure(error)
    && forall j :: 0 <= j < i ==> ParseLine(lines[j], parse).Success?
  }

  /** The piped-stdin branch of `main`, on the lines `readlines()` returned. */
  method ParsePipedStdin(rawLines: seq<string>, parse: NumberParser) returns (r: StdinOutcome)
    ensures r.ReadInteractively? <==> |StrippedNonBlank(rawLines)| < 4
    ensures r.Parsed? ==>
      && |r.anchors| == 4
      && forall i :: 0 <= i < 4 ==> ParseLine(StrippedNonBlank(rawLines)[i], parse) == Success(r.anchors[i])
    ensures |StrippedNonBlank(rawLines)| >= 4
      && (forall i :: 0 <= i < 4 ==> ParseLine(StrippedNonBlank(rawLines)[i], parse).Success?)
      ==> r.Parsed?
    ensures r.Rejected? ==> exists i :: i < 4 && FirstBadLine(StrippedNonBlank(rawLines), parse, i, r.error)
  {
    var lines := StrippedNonBlank(rawLines);
    if |lines| < 4 {
      return ReadInteractively;
    }
    var parsed: seq<AnchorPoint> := [];
    for i := 0 to 4
      invariant |parsed| == i
      invariant forall j :: 0 <= j < i ==> ParseLine(lines[j], parse) == Success(parsed[j])
    {
      var anchor := ParseLine(lines[i], parse);
      if anchor.Failure? {
        assert FirstBadLine(lines, parse, i, anchor.error);
        return Rejected(anchor.error);
      }
      parsed := parsed + [anchor.value];
    }
    return Parsed(parsed);
  }

  /** One anchor written as a stdin line `x y signal`. */
  function FormatLine(a: AnchorPoint, show: real -> string): string
  {
    Join([show(a.x), show(a.y), show(a.signal)], ' ')
  }

  function FormatLines(anchors: seq<AnchorPoint>, show: real -> string): (r: seq<string>)
    ensures |r| == |anchors| && forall i :: 0 <= i < |anchors| ==> r[i] == FormatLine(anchors[i], show)
  {
    if anchors == [] then [] else [FormatLine(anchors[0], show)] + FormatLines(anchors[1..], show)
  }

  /** A line written with a printer `float()` reads back is already
      stripped, and parses to the anchor it was written from. */
  lemma LineRoundTrip(a: AnchorPoint, show: real -> string, parse: NumberParser)
    requires AnchorReadsBack(show, parse, a)
    ensures StrippedPiece(FormatLine(a, show))
    ensures ParseLine(FormatLine(a, show), parse) == Success(a)
  {
    var sx, sy, ss := show(a.x), show(a.y), show(a.signal);
    var ws := [sx, sy, ss];
    var t := Join(ws, ' ');
    assert ws[1..] == [sy, ss] && [sy, ss][1..] == [ss];
    assert Join([ss], ' ') == ss;
    assert Join([sy, ss], ' ') == sy + [' '] + ss;
    assert t == sx + [' '] + Join([sy, ss], ' ');
    assert t == sx + [' '] + (sy + [' '] + ss);
    assert t[0] == sx[0] && t[|t| - 1] == ss[|ss| - 1];
    forall i | 0 <= i < 3 ensures ws[i] != [] && forall c :: c in ws[i] ==> !IsSpace(c) {
      assert PlainToken(ws[i]);
    }
    WordsJoin(ws);
    assert ToAnchor(ws, parse) == Success(a);
  }

  /** Four anchors written one per line are read back by the piped-stdin
      branch: the lines survive the strip-and-drop-blank step, and each
      parses to its anchor, in order. */
  lemma StdinRoundTrip(anchors: seq<AnchorPoint>, show: real -> string, parse: NumberParser)
    requires |anchors| == 4
    requires forall i :: 0 <= i < 4 ==> AnchorReadsBack(show, parse, anchors[i])
    ensures StrippedNonBlank(FormatLines(anchors, show)) == FormatLines(anchors, show)
    ensures forall i :: 0 <= i < 4 ==> ParseLine(FormatLines(anchors, show)[i], parse) == Success(anchors[i])
  {
    var ls := FormatLines(anchors, show);
    forall i | 0 <= i < 4
      ensures StrippedPiece(ls[i])
      ensures ParseLine(ls[i], parse) == Success(anchors[i])
    {
      LineRoundTrip(anchors[i], show, parse);
    }
    StrippedNonBlankUnchanged(ls);
  }
}
