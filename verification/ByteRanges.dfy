/** RFC 7233 byte ranges: printer, parser and the two resolvers
    (src/domain/value_objects.py, src/presentation/origin/routes.py, src/application/cache_service.py). */
module ByteRanges {
  import opened Text
  import opened Entities

  datatype ByteRange = ByteRange(start: Option<int>, end: Option<int>)

  datatype ParseError = InvalidHeader | InvalidSpecification

  type Parsed = Result<seq<ByteRange>, ParseError>

  // ---------- printer ----------

  function PrintBound(bound: Option<int>): string {
    if bound.Some? then PrintInt(bound.value) else ""
  }

  function ToHeader(r: ByteRange): string {
    "bytes=" + (PrintBound(r.start) + ("-" + PrintBound(r.end)))
  }

  // ---------- parser ----------

  /** Every parsed range has a bound, and its bounds are not negative. */
  ghost predicate WellFormed(r: ByteRange) {
    && (r.start.Some? || r.end.Some?)
    && (r.start.Some? ==> r.start.value >= 0)
    && (r.end.Some? ==> r.end.value >= 0)
  }

  /** What the header pattern captures after "bytes=": one or more characters with no newline,
      where a single final newline is not captured. */
  function RangeSet(header: string): Option<string> {
    var s := LStrip(header);
    if |s| < 5 || Lower(s[..5]) != "bytes" then None
    else
      var t := LStrip(s[5..]);
      if t == [] || t[0] != '=' then None
      else OneLine(LStrip(t[1..]))
  }

  function OneLine(s: string): Option<string> {
    var body := if s != [] && s[|s| - 1] == '\n' then s[..|s| - 1] else s;
    if body == [] || '\n' in body then None else Some(body)
  }

  function ReadBound(digits: string): Option<int>
    requires AllDigits(digits)
  {
    if digits == [] then None else Some(ParseNat(digits))
  }

  /** One comma-separated specification: blanks, digits, blanks, a dash, blanks, digits, blanks. */
  function ReadSpec(part: string): (r: Option<ByteRange>)
    ensures r.Some? ==> WellFormed(r.value)
  {
    var s := LStrip(part);
    var n := DigitRun(s);
    ReadDash(s[..n], LStrip(s[n..]))
  }

  function ReadDash(digits: string, t: string): (r: Option<ByteRange>)
    requires AllDigits(digits)
    ensures r.Some? ==> WellFormed(r.value)
  {
    if t == [] || t[0] != '-' then None else ReadEnd(digits, LStrip(t[1..]))
  }

  function ReadEnd(digits: string, u: string): (r: Option<ByteRange>)
    requires AllDigits(digits)
    ensures r.Some? ==> WellFormed(r.value)
  {
    var m := DigitRun(u);
    if LStrip(u[m..]) != [] || (digits == [] && m == 0) then None
    else Some(ByteRange(ReadBound(digits), ReadBound(u[..m])))
  }

  function ReadSpecs(parts: seq<string>): Parsed {
    if parts == [] then Ok([])
    else Extend(ReadSpecs(parts[..|parts| - 1]), ReadSpec(parts[|parts| - 1]))
  }

  function Extend(before: Parsed, spec: Option<ByteRange>): Parsed {
    if before.Err? then before
    else if spec.None? then Err(InvalidSpecification)
    else Ok(before.value + [spec.value])
  }

  function FromHeader(header: string): Parsed {
    match RangeSet(header)
    case None => Err(InvalidHeader)
    case Some(rangeSet) => ReadSpecs(Split(rangeSet, ','))
  }

  lemma ReadSpecsSnoc(parts: seq<string>, i: nat)
    requires i < |parts|
    ensures ReadSpecs(parts[..i + 1]) == Extend(ReadSpecs(parts[..i]), ReadSpec(parts[i]))
  {
    assert parts[..i + 1][..i] == parts[..i];
  }

  lemma {:induction false} ReadSpecsFails(parts: seq<string>, i: nat)
    requires i <= |parts| && ReadSpecs(parts[..i]).Err?
    ensures ReadSpecs(parts) == ReadSpecs(parts[..i])
    decreases |parts| - i
  {
    if i == |parts| {
      TakeAll(parts);
    } else {
      ReadSpecsSnoc(parts, i);
      ReadSpecsFails(parts, i + 1);
    }
  }

  /** The loop of ByteRange.from_header over the parts. */
  method ReadRanges(parts: seq<string>) returns (parsed: Parsed)
    ensures parsed == ReadSpecs(parts)
  {
    var ranges: seq<ByteRange> := [];
    for i := 0 to |parts|
      invariant ReadSpecs(parts[..i]) == Ok(ranges)
    {
      ReadSpecsSnoc(parts, i);
      var spec := ReadSpec(parts[i]);
      if spec.None? {
        ReadSpecsFails(parts, i + 1);
        return Err(InvalidSpecification);
      }
      ranges := ranges + [spec.value];
    }
    TakeAll(parts);
    parsed := Ok(ranges);
  }

  /** ByteRange.from_header. */
  method ParseRangeHeader(header: string) returns (parsed: Parsed)
    ensures parsed == FromHeader(header)
  {
    var rangeSet := RangeSet(header);
    if rangeSet.None? {
      return Err(InvalidHeader);
    }
    parsed := ReadRanges(Split(rangeSet.value, ','));
  }

  ghost predicate WellParsed(parsed: Parsed) {
    parsed.Ok? ==> forall r :: r in parsed.value ==> WellFormed(r)
  }

  lemma {:induction false} ReadSpecsWellFormed(parts: seq<string>)
    ensures WellParsed(ReadSpecs(parts))
    ensures ReadSpecs(parts).Ok? ==> |ReadSpecs(parts).value| == |parts|
  {
    if parts != [] {
      var init, last := parts[..|parts| - 1], parts[|parts| - 1];
      ReadSpecsWellFormed(init);
      ExtendParsed(ReadSpecs(init), ReadSpec(last));
    }
  }

  lemma ExtendParsed(before: Parsed, spec: Option<ByteRange>)
    requires WellParsed(before) && (spec.Some? ==> WellFormed(spec.value))
    ensures WellParsed(Extend(before, spec))
  {
  }

  /** A successful parse gives at least one range, each of them well formed. */
  lemma ParsedWellFormed(header: string)
    ensures WellParsed(FromHeader(header))
    ensures FromHeader(header).Ok? ==> FromHeader(header).value != []
  {
    var rangeSet := RangeSet(header);
    if rangeSet.Some? {
      ReadSpecsWellFormed(Split(rangeSet.value, ','));
    }
  }

  // ---------- round trip ----------

  /** Characters that a printed range is made of. */
  predicate SpecChar(c: char) { IsDigit(c) || c == '-' }

  lemma PrintIntChars(n: int)
    ensures |PrintInt(n)| > 0
    ensures forall i :: 0 <= i < |PrintInt(n)| ==> SpecChar(PrintInt(n)[i])
    ensures n < 0 ==> PrintInt(n)[0] == '-'
    ensures n >= 0 ==> AllDigits(PrintInt(n))
  {
  }

  /** The printed range set is read back unchanged as a single part. */
  lemma RangeSetPrinted(r: ByteRange)
    ensures RangeSet(ToHeader(r)) == Some(Body(r)) && Split(Body(r), ',') == [Body(r)]
  {
    BodyChars(r);
    RangeSetOfBody(Body(r));
    SplitSingle(Body(r), ',');
  }

  lemma BodyChars(r: ByteRange)
    ensures Body(r) != [] && forall i :: 0 <= i < |Body(r)| ==> SpecChar(Body(r)[i])
    ensures ',' !in Body(r)
  {
    if r.start.Some? { PrintIntChars(r.start.value); }
    if r.end.Some? { PrintIntChars(r.end.value); }
  }

  /** What may stand after "bytes=" without being cut: it begins with no blank and has no newline. */
  predicate Uncut(body: string) { body != [] && !IsSpace(body[0]) && '\n' !in body }

  lemma RangeSetOfBody(body: string)
    requires Uncut(body)
    ensures RangeSet("bytes=" + body) == Some(body)
  {
    hide LStrip, OneLine;
    var header := "bytes=" + body;
    LStripNothing(header);
    assert header[..5] == "bytes";
    assert Lower(header[..5]) == "bytes";
    assert header[5..] == "=" + body;
    AfterUnit(header[5..], body);
  }

  /** From "=" on, nothing is skipped and nothing is cut off. */
  lemma AfterUnit(t: string, body: string)
    requires t == "=" + body && Uncut(body)
    ensures LStrip(t) == t && t[1..] == body && LStrip(t[1..]) == body && OneLine(body) == Some(body)
  {
    hide LStrip;
    assert t[1..] == body;
    LStripNothing(t);
    LStripNothing(body);
    assert body[|body| - 1] in body;
  }

  lemma {:induction false} DigitRunPrefix(digits: string, rest: string)
    requires AllDigits(digits)
    requires rest == [] || !IsDigit(rest[0])
    ensures DigitRun(digits + rest) == |digits|
  {
    if digits == [] {
      assert digits + rest == rest;
    } else {
      assert (digits + rest)[1..] == digits[1..] + rest;
      DigitRunPrefix(digits[1..], rest);
    }
  }

  lemma LStripNothing(s: string)
    requires s == [] || !IsSpace(s[0])
    ensures LStrip(s) == s
  {
  }

  /** digits "-" tail, with no leading blank, is split at the dash. */
  lemma ReadSpecOf(digits: string, tail: string)
    requires AllDigits(digits)
    requires tail != [] ==> SpecChar(tail[0])
    ensures ReadSpec(digits + ("-" + tail)) == ReadEnd(digits, tail)
  {
    var t := "-" + tail;
    SkipDigits(digits, t);
    LStripNothing(t);
    assert t[1..] == tail;
    LStripNothing(tail);
  }

  lemma SkipDigits(digits: string, t: string)
    requires AllDigits(digits)
    requires t != [] && t[0] == '-'
    ensures ReadSpec(digits + t) == ReadDash(digits, LStrip(t))
  {
    var part := digits + t;
    LStripNothing(part);
    DigitRunPrefix(digits, t);
    assert part[..|digits|] == digits;
    assert part[|digits|..] == t;
  }

  lemma ReadBoundPrinted(bound: Option<int>)
    requires bound.Some? ==> bound.value >= 0
    ensures AllDigits(PrintBound(bound)) && ReadBound(PrintBound(bound)) == bound
    ensures PrintBound(bound) == [] <==> bound.None?
  {
    if bound.Some? {
      ParsePrint(bound.value);
    }
  }

  /** The printed range set of r. */
  function Body(r: ByteRange): string { PrintBound(r.start) + ("-" + PrintBound(r.end)) }

  /** A printed range with a negative bound, or with no bound, is not read at all. */
  lemma ReadSpecRejects(r: ByteRange)
    requires !WellFormed(r)
    ensures ReadSpec(Body(r)) == None
  {
    var a, b := PrintBound(r.start), PrintBound(r.end);
    if r.start.Some? && r.start.value < 0 {
      var digits := PrintNat(-r.start.value);
      var tail := digits + ("-" + b);
      assert Body(r) == [] + ("-" + tail);
      ReadSpecOf([], tail);
      DigitRunPrefix(digits, "-" + b);
      assert tail[|digits|..] == "-" + b;
      LStripNothing("-" + b);
    } else {
      ReadBoundPrinted(r.start);
      if r.end.Some? {
        PrintIntChars(r.end.value);
        LStripNothing(b);
      }
      ReadSpecOf(a, b);
    }
  }

  lemma ReadSpecAccepts(r: ByteRange)
    requires WellFormed(r)
    ensures ReadSpec(Body(r)) == Some(r)
  {
    var a, b := PrintBound(r.start), PrintBound(r.end);
    ReadBoundPrinted(r.start);
    ReadBoundPrinted(r.end);
    ReadSpecOf(a, b);
    assert b + [] == b;
    DigitRunPrefix(b, []);
    assert b[|b|..] == [];
    TakeAll(b);
  }

  lemma ReadSpecsSingle(part: string)
    ensures ReadSpecs([part]) == Extend(Ok([]), ReadSpec(part))
  {
    var parts := [part];
    assert parts[..|parts| - 1] == [];
  }

  /** Printing then parsing gives the range back exactly when it is well formed;
      otherwise the header is rejected. */
  lemma RoundTrip(r: ByteRange)
    ensures FromHeader(ToHeader(r)) == Ok([r]) <==> WellFormed(r)
    ensures !WellFormed(r) ==> FromHeader(ToHeader(r)) == Err(InvalidSpecification)
  {
    FromHeaderPrinted(r);
    if WellFormed(r) {
      ReadSpecAccepts(r);
    } else {
      ReadSpecRejects(r);
    }
    Accepted(r, FromHeader(ToHeader(r)), ReadSpec(Body(r)));
  }

  lemma FromHeaderPrinted(r: ByteRange)
    ensures FromHeader(ToHeader(r)) == Extend(Ok([]), ReadSpec(Body(r)))
  {
    RangeSetPrinted(r);
    ReadSpecsSingle(Body(r));
  }

  lemma Accepted(r: ByteRange, parsed: Parsed, spec: Option<ByteRange>)
    requires parsed == Extend(Ok([]), spec)
    requires spec == if WellFormed(r) then Some(r) else None
    ensures parsed == Ok([r]) <==> WellFormed(r)
    ensures !WellFormed(r) ==> parsed == Err(InvalidSpecification)
  {
    assert [] + [r] == [r];
  }

  // ---------- the two resolvers ----------

  function Max(a: int, b: int): int { if a >= b then a else b }

  function Min(a: int, b: int): int { if a <= b then a else b }

  function Or(o: Option<int>, default: int): int { if o.Some? then o.value else default }

  /** "bytes start-end/total" */
  function RangeLine(start: int, end: int, total: nat): string {
    "bytes " + (PrintInt(start) + ("-" + (PrintInt(end) + ("/" + PrintNat(total)))))
  }

  /** ByteRange.content_range: the explicit end is not clamped. */
  function ContentRange(r: ByteRange, total: nat): string {
    if r.start.None? && r.end.Some? then RangeLine(Max(total - r.end.value, 0), total - 1, total)
    else if r.end.None? && r.start.Some? then RangeLine(r.start.value, total - 1, total)
    else RangeLine(Or(r.start, 0), Or(r.end, total - 1), total)
  }

  /** data[start:end], with the slice bounds clamped to the data. */
  function Slice(data: Bytes, start: nat, end: nat): Bytes {
    var hi := Min(end, |data|);
    if start <= hi then data[start..hi] else []
  }

  /** What a range asks for (section 2.1 of RFC 7233): the last end bytes, or the positions from start to end. */
  ghost predicate Selects(r: ByteRange, total: nat, p: int) {
    && 0 <= p < total
    && if r.start.None? && r.end.Some? then p >= total - r.end.value
       else Or(r.start, 0) <= p && (r.end.Some? ==> p <= r.end.value)
  }

  /** The origin's resolver. */
  function OriginBounds(r: ByteRange, total: nat): (bounds: (int, int))
    requires WellFormed(r)
    ensures forall p :: bounds.0 <= p <= bounds.1 <==> Selects(r, total, p)
  {
    var (start, end) :=
      if r.start.None? && r.end.Some? then (Max(total - r.end.value, 0), total - 1)
      else if r.end.None? && r.start.Some? then (r.start.value, total - 1)
      else (Or(r.start, 0), Or(r.end, total - 1));
    (start, Min(end, total - 1))
  }

  /** The edge's resolver. */
  function EdgeBounds(r: ByteRange, total: nat): (bounds: (int, int))
    requires WellFormed(r)
    ensures forall p :: bounds.0 <= p <= bounds.1 <==> Selects(r, total, p)
  {
    var (start, end) :=
      if r.start.None? && r.end.Some? then (Max(total - r.end.value, 0), total - 1)
      else if r.end.None? && r.start.Some? then (r.start.value, total - 1)
      else (if r.start.Some? then r.start.value else 0, if r.end.Some? then r.end.value else total - 1);
    (start, Min(end, total - 1))
  }

  datatype Answer =
    | PartialContent(body: Bytes, contentRange: string)
    | NotSatisfiable(contentRange: string)
    | ParseFailure

  /** _handle_range at the origin: 206 with the bytes, or 416. */
  function OriginRange(content: Bytes, parsed: Parsed): Answer
    requires WellParsed(parsed)
  {
    var total := |content|;
    if parsed.Err? || parsed.value == [] then NotSatisfiable("bytes */" + PrintNat(total))
    else OriginCut(content, parsed.value[0])
  }

  function OriginCut(content: Bytes, r: ByteRange): Answer
    requires WellFormed(r)
  {
    var total := |content|;
    var (start, end) := OriginBounds(r, total);
    if start > end || start >= total then NotSatisfiable("bytes */" + PrintNat(total))
    else PartialContent(Slice(content, start, end + 1), RangeLine(start, end, total))
  }

  /** The range cut of handle_range_request at the edge: always 206, unless the header does not parse. */
  function EdgeRange(content: Bytes, parsed: Parsed): Answer
    requires WellParsed(parsed) && (parsed.Ok? ==> parsed.value != [])
  {
    if parsed.Err? then ParseFailure else EdgeCut(content, parsed.value[0])
  }

  function EdgeCut(content: Bytes, r: ByteRange): Answer
    requires WellFormed(r)
  {
    var (start, end) := EdgeBounds(r, |content|);
    PartialContent(Slice(content, start, end + 1), ContentRange(r, |content|))
  }

  /** The answer names the bytes start to end, and holds them. */
  ghost predicate NamesItsBytes(content: Bytes, a: Answer, start: int, end: int) {
    && 0 <= start <= end < |content|
    && a == PartialContent(content[start..end + 1], RangeLine(start, end, |content|))
  }

  /** The answer is a 206 whose Content-Range names exactly its bytes. */
  ghost predicate Truthful(content: Bytes, a: Answer) {
    exists start, end :: NamesItsBytes(content, a, start, end)
  }

  /** Some byte is asked for that exists. */
  ghost predicate Satisfiable(r: ByteRange, total: nat) { exists p :: Selects(r, total, p) }

  /** The explicit end is past the resource. */
  predicate OverlongEnd(r: ByteRange, total: nat) {
    r.start.Some? && r.end.Some? && r.end.value >= total
  }

  /** Two resolvers that select the same positions, if any, have the same bounds. */
  lemma SameBounds(r: ByteRange, total: nat)
    requires WellFormed(r)
    ensures Satisfiable(r, total) <==> OriginBounds(r, total).0 <= OriginBounds(r, total).1
    ensures Satisfiable(r, total) <==> EdgeBounds(r, total).0 <= EdgeBounds(r, total).1
    ensures Satisfiable(r, total) ==> EdgeBounds(r, total) == OriginBounds(r, total)
  {
    var (start, end) := OriginBounds(r, total);
    var (first, last) := EdgeBounds(r, total);
    if start <= end {
      assert Selects(r, total, start) && Selects(r, total, end);
      assert first <= start <= last && first <= end <= last;
    }
    if first <= last {
      assert Selects(r, total, first) && Selects(r, total, last);
    }
  }

  /** The origin answers 206 exactly when some existing byte is asked for, and its Content-Range then names exactly
      the bytes it sends, those that were asked for; otherwise it answers 416. */
  lemma OriginTruthful(content: Bytes, r: ByteRange)
    requires WellFormed(r)
    ensures OriginCut(content, r).PartialContent? <==> Satisfiable(r, |content|)
    ensures Satisfiable(r, |content|) ==>
      NamesItsBytes(content, OriginCut(content, r), OriginBounds(r, |content|).0, OriginBounds(r, |content|).1)
    ensures !Satisfiable(r, |content|) ==> OriginCut(content, r) == NotSatisfiable("bytes */" + PrintNat(|content|))
  {
    SameBounds(r, |content|);
    var (start, end) := OriginBounds(r, |content|);
    if start <= end {
      assert Selects(r, |content|, start) && Selects(r, |content|, end);
    }
  }

  /** The edge always answers 206. Its body is empty exactly when no existing byte is asked for, where the origin
      answers 416, and is the origin's body otherwise. */
  lemma CutsAgree(content: Bytes, r: ByteRange)
    requires WellFormed(r)
    ensures EdgeCut(content, r).body == [] <==> OriginCut(content, r).NotSatisfiable?
    ensures OriginCut(content, r).PartialContent? ==>
      && EdgeCut(content, r).body == OriginCut(content, r).body
      && (EdgeCut(content, r) == OriginCut(content, r) <==> !OverlongEnd(r, |content|))
  {
    OriginTruthful(content, r);
    SameBounds(r, |content|);
    var (start, end) := EdgeBounds(r, |content|);
    if Satisfiable(r, |content|) {
      if OverlongEnd(r, |content|) {
        RangeLineInjective(r.start.value, r.end.value, r.start.value, |content| - 1, |content|);
      }
    }
  }

  /** The edge's Content-Range names exactly the bytes of its body if and only if some existing byte is asked for
      and the explicit end, if there is one, is not past the resource. */
  lemma EdgeTruthfulIff(content: Bytes, r: ByteRange)
    requires WellFormed(r)
    ensures Truthful(content, EdgeCut(content, r)) <==>
      Satisfiable(r, |content|) && !OverlongEnd(r, |content|)
  {
    OriginTruthful(content, r);
    CutsAgree(content, r);
    var edge := EdgeCut(content, r);
    if Truthful(content, edge) {
      var start, end :| NamesItsBytes(content, edge, start, end);
      assert edge.body != [];
      if OverlongEnd(r, |content|) {
        RangeLineInjective(r.start.value, r.end.value, start, end, |content|);
      }
    }
  }

  /** The same for whole headers, over every header string: the edge fails exactly when the header does not parse,
      where the origin answers 416; otherwise it answers 206, with the origin's bytes or none, and what its
      Content-Range says is true exactly when the origin answers 206 and the first range has no overlong end. */
  lemma EdgeAgreesWithOrigin(content: Bytes, header: string)
    ensures WellParsed(FromHeader(header)) && (FromHeader(header).Ok? ==> FromHeader(header).value != [])
    ensures Agreement(content, FromHeader(header))
  {
    ParsedWellFormed(header);
    AnswersAgree(content, FromHeader(header));
  }

  ghost predicate Agreement(content: Bytes, parsed: Parsed)
    requires WellParsed(parsed) && (parsed.Ok? ==> parsed.value != [])
  {
    var origin, edge := OriginRange(content, parsed), EdgeRange(content, parsed);
    && (edge.ParseFailure? <==> parsed.Err?)
    && (parsed.Err? ==> origin.NotSatisfiable?)
    && (origin.PartialContent? ==> edge.PartialContent? && edge.body == origin.body && edge.body != [])
    && (origin.NotSatisfiable? && parsed.Ok? ==> edge.PartialContent? && edge.body == [])
    && (origin.PartialContent? <==> Truthful(content, origin))
    && (Truthful(content, edge) <==> origin.PartialContent? && !OverlongEnd(parsed.value[0], |content|))
    && (edge == origin <==> Truthful(content, edge))
  }

  lemma AnswersAgree(content: Bytes, parsed: Parsed)
    requires WellParsed(parsed) && (parsed.Ok? ==> parsed.value != [])
    ensures Agreement(content, parsed)
  {
    if parsed.Ok? {
      assert parsed.value[0] in parsed.value;
      OriginTruthful(content, parsed.value[0]);
      CutsAgree(content, parsed.value[0]);
      EdgeTruthfulIff(content, parsed.value[0]);
    }
  }

  /** Two headers for which the edge's Content-Range is not true: of an empty resource, and past the end. */
  lemma EdgeMisnames(x: byte)
    ensures FromHeader("bytes=0-") == Ok([ByteRange(Some(0), None)])
    ensures EdgeCut([], ByteRange(Some(0), None)) == PartialContent([], "bytes 0--1/0")
    ensures OriginCut([], ByteRange(Some(0), None)) == NotSatisfiable("bytes */0")
    ensures FromHeader("bytes=0-9") == Ok([ByteRange(Some(0), Some(9))])
    ensures EdgeCut([x], ByteRange(Some(0), Some(9))) == PartialContent([x], "bytes 0-9/1")
    ensures OriginCut([x], ByteRange(Some(0), Some(9))) == PartialContent([x], "bytes 0-0/1")
  {
    RoundTrip(ByteRange(Some(0), None));
    RoundTrip(ByteRange(Some(0), Some(9)));
    PrintDigits();
    hide FromHeader, PrintNat;
    assert ToHeader(ByteRange(Some(0), None)) == "bytes=0-";
    assert ToHeader(ByteRange(Some(0), Some(9))) == "bytes=0-9";
    assert RangeLine(0, -1, 0) == "bytes 0--1/0";
    assert RangeLine(0, 9, 1) == "bytes 0-9/1" && RangeLine(0, 0, 1) == "bytes 0-0/1";
  }

  lemma PrintDigits()
    ensures PrintNat(0) == "0" && PrintNat(1) == "1" && PrintNat(8) == "8" && PrintNat(9) == "9"
  {
  }

  /** A printed number followed by something that is not a digit can be read off. */
  lemma NumberInjective(m: nat, n: nat, s: string, t: string)
    requires s != [] && !IsDigit(s[0]) && t != [] && !IsDigit(t[0])
    requires PrintNat(m) + s == PrintNat(n) + t
    ensures m == n && s == t
  {
    var a, b := PrintNat(m), PrintNat(n);
    DigitRunPrefix(a, s);
    DigitRunPrefix(b, t);
    assert a == (a + s)[..|a|] && b == (b + t)[..|b|];
    assert s == (a + s)[|a|..] && t == (b + t)[|b|..];
    ParsePrint(m);
    ParsePrint(n);
  }

  /** A Content-Range line shows its positions. */
  lemma RangeLineInjective(start1: nat, end1: nat, start2: nat, end2: nat, total: nat)
    ensures RangeLine(start1, end1, total) == RangeLine(start2, end2, total) ==> start1 == start2 && end1 == end2
  {
    if RangeLine(start1, end1, total) == RangeLine(start2, end2, total) {
      var tail := "/" + PrintNat(total);
      var a, b := PrintNat(end1) + tail, PrintNat(end2) + tail;
      DropUnit(PrintNat(start1) + ("-" + a));
      DropUnit(PrintNat(start2) + ("-" + b));
      NumberInjective(start1, start2, "-" + a, "-" + b);
      assert ("-" + a)[1..] == a && ("-" + b)[1..] == b;
      NumberInjective(end1, end2, tail, tail);
    }
  }

  lemma DropUnit(s: string)
    ensures ("bytes " + s)[6..] == s
  {
  }
}
