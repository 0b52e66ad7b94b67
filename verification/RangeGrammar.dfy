/** The grammar of Range headers, stated apart from the parser: which parts are ranges and which ranges they are, and
    headers with several ranges (src/domain/value_objects.py; section 2.1 of RFC 7233). */
module RangeGrammar {
  import opened Text
  import opened ByteRanges

  // ---------- one range ----------

  /** blanks, digits, blanks, a dash, blanks, digits, blanks */
  ghost predicate Written(part: string, b1: string, d1: string, b2: string, b3: string, d2: string, b4: string) {
    && Blank(b1) && Blank(b2) && Blank(b3) && Blank(b4) && AllDigits(d1) && AllDigits(d2)
    && part == b1 + (d1 + (b2 + ("-" + (b3 + (d2 + b4)))))
  }

  /** What the two numbers mean; a range needs at least one. */
  function RangeOf(d1: string, d2: string): Option<ByteRange>
    requires AllDigits(d1) && AllDigits(d2)
  {
    if d1 == [] && d2 == [] then None else Some(ByteRange(ReadBound(d1), ReadBound(d2)))
  }

  lemma DigitsAreNotBlank(d: string, rest: string)
    requires AllDigits(d) && d != []
    ensures LStrip(d + rest) == d + rest
  {
    assert IsDigit(d[0]) && (d + rest)[0] == d[0];
    LStripNothing(d + rest);
  }

  lemma LStripAllBlank(s: string)
    requires Blank(s)
    ensures LStrip(s) == []
  {
    LStripBlank(s, []);
    assert s + [] == s;
  }

  /** The second number, after the dash. */
  lemma ReadsEnd(d1: string, b3: string, d2: string, b4: string)
    requires AllDigits(d1) && AllDigits(d2) && Blank(b3) && Blank(b4)
    ensures ReadEnd(d1, LStrip(b3 + (d2 + b4))) == RangeOf(d1, d2)
  {
    LStripBlank(b3, d2 + b4);
    LStripAllBlank(b4);
    if d2 == [] {
      assert d2 + b4 == b4;
      assert DigitRun([]) == 0;
      var none: string := [];
      assert none[0..] == [] && none[..0] == [];
    } else {
      DigitsAreNotBlank(d2, b4);
      DigitRunPrefix(d2, b4);
      assert (d2 + b4)[|d2|..] == b4 && (d2 + b4)[..|d2|] == d2;
    }
  }

  /** The dash. */
  lemma ReadsDash(d1: string, b2: string, z: string)
    requires AllDigits(d1) && Blank(b2)
    ensures ReadDash(d1, LStrip(b2 + ("-" + z))) == ReadEnd(d1, LStrip(z))
  {
    LStripBlank(b2, "-" + z);
    LStripNothing("-" + z);
    assert ("-" + z)[1..] == z;
  }

  /** The first number. */
  lemma ReadsStart(b1: string, d1: string, b2: string, z: string)
    requires Blank(b1) && AllDigits(d1) && Blank(b2)
    ensures ReadSpec(b1 + (d1 + (b2 + ("-" + z)))) == ReadDash(d1, LStrip(b2 + ("-" + z)))
  {
    var y := b2 + ("-" + z);
    LStripBlank(b1, d1 + y);
    if d1 == [] {
      assert d1 + y == y;
      LStripBlank(b2, "-" + z);
      LStripNothing("-" + z);
      DigitRunPrefix([], "-" + z);
      assert [] + ("-" + z) == "-" + z;
      assert ("-" + z)[..0] == [] && ("-" + z)[0..] == "-" + z;
    } else {
      DigitsAreNotBlank(d1, y);
      assert b2 != [] ==> IsSpace(b2[0]) && y[0] == b2[0];
      assert b2 == [] ==> y[0] == '-';
      DigitRunPrefix(d1, y);
      assert (d1 + y)[|d1|..] == y && (d1 + y)[..|d1|] == d1;
    }
  }

  lemma ReadsWritten(part: string, b1: string, d1: string, b2: string, b3: string, d2: string, b4: string)
    requires Written(part, b1, d1, b2, b3, d2, b4)
    ensures ReadSpec(part) == RangeOf(d1, d2)
  {
    hide LStrip, ReadSpec, ReadDash, ReadEnd;
    ReadsStart(b1, d1, b2, b3 + (d2 + b4));
    ReadsDash(d1, b2, b3 + (d2 + b4));
    ReadsEnd(d1, b3, d2, b4);
  }

  /** Whatever is read as a range is written like one. */
  lemma WrittenOut(part: string) returns (b1: string, d1: string, b2: string, b3: string, d2: string, b4: string)
    requires ReadSpec(part).Some?
    ensures Written(part, b1, d1, b2, b3, d2, b4)
  {
    var s := LStrip(part);
    var n := DigitRun(s);
    var t := LStrip(s[n..]);
    b1 := LStripSplits(part);
    d1 := s[..n];
    b2 := LStripSplits(s[n..]);
    b3, d2, b4 := EndWrittenOut(d1, t);
    hide LStrip, DigitRun, Blank;
    assert s == d1 + s[n..];
  }

  lemma EndWrittenOut(d1: string, t: string) returns (b3: string, d2: string, b4: string)
    requires AllDigits(d1) && ReadDash(d1, t).Some?
    ensures Blank(b3) && AllDigits(d2) && Blank(b4) && t == "-" + (b3 + (d2 + b4))
  {
    var u := LStrip(t[1..]);
    var m := DigitRun(u);
    b3 := LStripSplits(t[1..]);
    d2, b4 := u[..m], u[m..];
    var rest := LStripSplits(b4);
    assert rest + [] == rest;
    hide LStrip, DigitRun, Blank;
    assert u == d2 + b4;
    assert t == "-" + t[1..];
  }

  /** A part is read as this range if and only if it is written as it, with any blanks and leading zeros. */
  lemma ReadSpecIff(part: string, r: ByteRange)
    ensures ReadSpec(part) == Some(r) <==>
      exists b1, d1, b2, b3, d2, b4 :: Written(part, b1, d1, b2, b3, d2, b4) && RangeOf(d1, d2) == Some(r)
  {
    hide ReadSpec;
    if ReadSpec(part) == Some(r) {
      var b1, d1, b2, b3, d2, b4 := WrittenOut(part);
      ReadsWritten(part, b1, d1, b2, b3, d2, b4);
    }
    forall b1, d1, b2, b3, d2, b4 | Written(part, b1, d1, b2, b3, d2, b4)
      ensures ReadSpec(part) == RangeOf(d1, d2)
    {
      ReadsWritten(part, b1, d1, b2, b3, d2, b4);
    }
  }

  // ---------- several ranges ----------

  /** The parts are read in order, each as its own range; one bad part spoils the header. */
  lemma {:induction false} ReadsInOrder(parts: seq<string>, rs: seq<ByteRange>)
    ensures ReadSpecs(parts) == Ok(rs) <==>
      |rs| == |parts| && forall i :: 0 <= i < |parts| ==> ReadSpec(parts[i]) == Some(rs[i])
    ensures ReadSpecs(parts).Err? <==> exists i :: 0 <= i < |parts| && ReadSpec(parts[i]).None?
  {
    hide ReadSpec;
    if parts != [] {
      var n := |parts| - 1;
      var init, last := parts[..n], ReadSpec(parts[n]);
      if rs != [] {
        ReadsInOrder(init, rs[..|rs| - 1]);
        assert rs[..|rs| - 1] + [rs[|rs| - 1]] == rs;
      } else {
        ReadsInOrder(init, []);
      }
      if ReadSpecs(init).Ok? {
        ReadsInOrder(init, ReadSpecs(init).value);
      }
    }
  }

  /** The unit in any case, with any blanks around it, and perhaps a newline at the end. */
  ghost predicate HeaderWritten(header: string, b0: string, unit: string, b1: string, b2: string,
                                body: string, newline: bool) {
    && Blank(b0) && Lower(unit) == "bytes" && Blank(b1) && Blank(b2) && Uncut(body)
    && header == b0 + (unit + (b1 + ("=" + (b2 + (body + if newline then "\n" else "")))))
  }

  lemma RangeSetPadded(header: string, b0: string, unit: string, b1: string, b2: string, body: string, newline: bool)
    requires HeaderWritten(header, b0, unit, b1, b2, body, newline)
    ensures RangeSet(header) == Some(body)
  {
    var rest := body + if newline then "\n" else "";
    var y := b1 + ("=" + (b2 + rest));
    LStripBlank(b0, unit + y);
    UnitIsNotBlank(unit);
    assert (unit + y)[0] == unit[0];
    LStripNothing(unit + y);
    assert (unit + y)[..5] == unit && (unit + y)[5..] == y;
    LStripBlank(b1, "=" + (b2 + rest));
    LStripNothing("=" + (b2 + rest));
    assert ("=" + (b2 + rest))[1..] == b2 + rest;
    LStripBlank(b2, rest);
    assert rest[0] == body[0];
    LStripNothing(rest);
    OneLineOf(body, newline);
    hide LStrip, Lower, OneLine;
  }

  lemma OneLineOf(body: string, newline: bool)
    requires Uncut(body)
    ensures OneLine(body + if newline then "\n" else "") == Some(body)
  {
    var s := body + if newline then "\n" else "";
    assert body[|body| - 1] in body;
    assert newline ==> s[..|s| - 1] == body;
    assert !newline ==> s == body;
  }

  /** A header is accepted with this set of ranges if and only if it is written like that. */
  lemma RangeSetIff(header: string, body: string)
    ensures RangeSet(header) == Some(body) <==>
      exists b0, unit, b1, b2, newline :: HeaderWritten(header, b0, unit, b1, b2, body, newline)
  {
    if RangeSet(header) == Some(body) {
      var b0, unit, b1, b2, newline := HeaderWrittenOut(header);
    }
    forall b0, unit, b1, b2, newline | HeaderWritten(header, b0, unit, b1, b2, body, newline)
      ensures RangeSet(header) == Some(body)
    {
      RangeSetPadded(header, b0, unit, b1, b2, body, newline);
    }
  }

  lemma HeaderWrittenOut(header: string)
    returns (b0: string, unit: string, b1: string, b2: string, newline: bool)
    requires RangeSet(header).Some?
    ensures HeaderWritten(header, b0, unit, b1, b2, RangeSet(header).value, newline)
  {
    var s := LStrip(header);
    var t := LStrip(s[5..]);
    var rest := LStrip(t[1..]);
    b0 := LStripSplits(header);
    unit := s[..5];
    b1 := LStripSplits(s[5..]);
    b2 := LStripSplits(t[1..]);
    newline := LineOut(rest);
    var body := OneLine(rest).value;
    assert RangeSet(header) == Some(body);
    hide RangeSet, OneLine, LStrip, Lower, Blank, Uncut;
    assert t == "=" + (b2 + (body + if newline then "\n" else ""));
    assert s == unit + (b1 + t);
  }

  lemma LineOut(rest: string) returns (newline: bool)
    requires OneLine(rest).Some? && (rest == [] || !IsSpace(rest[0]))
    ensures Uncut(OneLine(rest).value) && rest == OneLine(rest).value + if newline then "\n" else ""
  {
    newline := rest[|rest| - 1] == '\n';
    var body := OneLine(rest).value;
    assert newline ==> rest == rest[..|rest| - 1] + "\n";
    assert body[0] == rest[0];
  }

  lemma UnitIsNotBlank(unit: string)
    requires Lower(unit) == "bytes"
    ensures |unit| == 5 && !IsSpace(unit[0])
  {
    assert Lower(unit)[0] == LowerChar(unit[0]) == 'b';
  }

  function Bodies(rs: seq<ByteRange>): seq<string> { Map(Body, rs) }

  /** The header for several ranges. */
  function RangesHeader(rs: seq<ByteRange>): string
    requires rs != []
  {
    "bytes=" + Join(Bodies(rs), ',')
  }

  lemma BodyAt(rs: seq<ByteRange>, i: nat)
    requires i < |rs|
    ensures Bodies(rs)[i] == Body(rs[i])
  {
    MapAt(Body, rs, i);
  }

  lemma {:induction false} JoinIsUncut(parts: seq<string>)
    requires parts != [] && forall i :: 0 <= i < |parts| ==> Uncut(parts[i])
    ensures Uncut(Join(parts, ','))
  {
    if |parts| > 1 {
      JoinIsUncut(parts[1..]);
      var j := parts[0] + [','] + Join(parts[1..], ',');
      assert j[0] == parts[0][0];
    }
  }

  /** Printing several well-formed ranges and parsing them gives them back, in order. */
  lemma RangesRoundTrip(rs: seq<ByteRange>)
    requires rs != [] && forall i :: 0 <= i < |rs| ==> WellFormed(rs[i])
    ensures FromHeader(RangesHeader(rs)) == Ok(rs)
  {
    var bodies := Bodies(rs);
    hide ReadSpec, RangeSet, Split, Join, Body, Map, WellFormed;
    forall i | 0 <= i < |bodies| ensures Uncut(bodies[i]) && ',' !in bodies[i] && ReadSpec(bodies[i]) == Some(rs[i]) {
      BodyAt(rs, i);
      BodyChars(rs[i]);
      BodyIsUncut(Body(rs[i]));
      ReadSpecAccepts(rs[i]);
    }
    JoinIsUncut(bodies);
    RangeSetOfBody(Join(bodies, ','));
    SplitOfJoin(bodies, ',');
    ReadsInOrder(bodies, rs);
  }

  lemma BodyIsUncut(body: string)
    requires body != [] && forall i :: 0 <= i < |body| ==> SpecChar(body[i])
    ensures Uncut(body)
  {
  }
}
