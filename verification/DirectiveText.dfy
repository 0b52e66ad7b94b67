/** What the text of a Cache-Control header means, without the parser's own steps
    (src/infrastructure/cache_control.py; section 5.2 of RFC 7234). */
module DirectiveText {
  import opened Text
  import opened CacheControl

  // ---------- one directive ----------

  /** The piece is the directive of this name, in any case, with any blanks, with or without a value. */
  ghost predicate Spells(piece: string, name: string, pre: string, word: string, gap: string, value: Option<string>) {
    && Blank(pre) && Blank(gap) && Trimmed(word) && '=' !in word && Lower(word) == name
    && piece == pre + (word + (gap + (if value.Some? then "=" + value.value else "")))
  }

  ghost predicate IsDirective(piece: string, name: string) {
    exists pre, word, gap, value :: Spells(piece, name, pre, word, gap, value)
  }

  lemma FirstEquals(a: string, rest: string)
    requires '=' !in a
    ensures Find(a + ("=" + rest), '=') == |a|
    ensures (a + ("=" + rest))[..|a|] == a && (a + ("=" + rest))[|a| + 1..] == rest
  {
    FindIs(a + ("=" + rest), '=', |a|);
  }

  lemma {:induction false} FindIs(s: string, c: char, n: nat)
    requires n < |s| && s[n] == c && c !in s[..n]
    ensures Find(s, c) == n
  {
    if n > 0 {
      assert s[0] in s[..n];
      assert s[1..][..n - 1] == s[..n][1..];
      FindIs(s[1..], c, n - 1);
    }
  }

  lemma BlankHasNoEquals(s: string)
    requires Blank(s)
    ensures '=' !in s
  {
  }

  /** Reading a directive without a value. */
  lemma ReadsFlag(piece: string, name: string, pre: string, word: string, gap: string)
    requires Spells(piece, name, pre, word, gap, None)
    ensures ReadToken(piece) == Token(NameOf(name), None)
  {
    assert gap + "" == gap;
    StripPadded(pre, word, gap);
    StripNothing(word);
    EmptyIsNoNumber();
    hide Strip, Find, Lower, NameOf, ParseInt, Blank;
  }

  lemma EmptyIsNoNumber()
    ensures ParseInt("") == None
  {
  }

  /** Reading a directive with a value. */
  lemma ReadsValue(piece: string, name: string, pre: string, word: string, gap: string, value: string)
    requires Spells(piece, name, pre, word, gap, Some(value))
    ensures ReadToken(piece) == Token(NameOf(name), ParseInt(value))
  {
    var head := word + gap;
    var y := head + "=";
    var s := word + (gap + ("=" + value));
    BlankHasNoEquals(gap);
    assert s == y + value && s == head + ("=" + value);
    LStripBlank(pre, s);
    assert s[0] == word[0];
    assert LStrip(s) == s;
    RStripAfter(y, value);
    var t := Strip(piece);
    assert t == y + RStrip(value) == head + ("=" + RStrip(value));
    FirstEquals(head, RStrip(value));
    StripPadded("", word, gap);
    assert "" + (word + gap) == head;
    ParseTrimmed(value);
    hide Strip, Find, Lower, NameOf, ParseInt, Blank, RStrip, LStrip;
    assert t != [] && Find(t, '=') == |head| < |t|;
  }

  /** Blanks around a number do not matter. */
  lemma ParseTrimmed(value: string)
    ensures ParseInt(Strip(RStrip(value))) == ParseInt(value)
  {
    var post := RStripSplits(value);
    var r := RStrip(value);
    StripRight(value, r, post);
    StripTwice(value);
    hide Strip, RStrip;
    SameNumber(Strip(r), value);
  }

  lemma SameNumber(a: string, b: string)
    requires Strip(a) == Strip(b)
    ensures ParseInt(a) == ParseInt(b)
  {
    hide Strip, ParseNat;
  }

  lemma StripRight(value: string, r: string, post: string)
    requires Blank(post) && value == r + post && r == RStrip(value)
    ensures Strip(r) == Strip(value)
  {
    var pre := LStripSplits(r);
    var core := LStrip(r);
    if core == [] {
      assert r == pre && pre + [] == pre;
      StripAllBlank(r);
      StripAllBlank(value);
    } else {
      hide LStrip, RStrip, Strip;
      assert core[|core| - 1] == r[|r| - 1];
      StripPadded(pre, core, []);
      StripPadded(pre, core, post);
      assert core + [] == core && pre + core + post == pre + (core + post);
    }
  }

  lemma StripTwice(s: string)
    ensures Strip(Strip(s)) == Strip(s)
  {
    if Strip(s) != [] {
      StripNothing(Strip(s));
    }
  }

  /** Whatever has a name is that directive: nothing else is read as one. */
  lemma ReadsName(piece: string, name: string)
    requires name != [] && NameOf(name) != Other
    ensures ReadToken(piece).name == NameOf(name) <==> IsDirective(piece, name)
  {
    if IsDirective(piece, name) {
      var pre, word, gap, value :| Spells(piece, name, pre, word, gap, value);
      if value.None? {
        ReadsFlag(piece, name, pre, word, gap);
      } else {
        ReadsValue(piece, name, pre, word, gap, value.value);
      }
    }
    if ReadToken(piece).name == NameOf(name) {
      SpelledOut(piece, name);
    }
  }

  /** Two texts with one known name are the same text. */
  lemma NameIsText(a: string, b: string)
    requires NameOf(a) == NameOf(b) != Other
    ensures a == b
  {
  }

  lemma SpelledOut(piece: string, name: string)
    requires NameOf(name) != Other && ReadToken(piece).name == NameOf(name)
    ensures IsDirective(piece, name)
  {
    var pre, post := StripSplits(piece);
    var t := Strip(piece);
    var eq := Find(t, '=');
    StripTwice(piece);
    hide Strip, Find, Lower, NameOf, ParseInt, IsDirective;
    if eq < |t| {
      NameIsText(Lower(Strip(t[..eq])), name);
      SpelledWithValue(piece, name, pre, t, post, eq);
    } else {
      NameIsText(Lower(t), name);
      WordIsThere(t, name);
      assert t[..eq] == t;
      SpelledAlone(piece, name, pre, t, post);
    }
  }

  lemma SpelledAlone(piece: string, name: string, pre: string, t: string, post: string)
    requires Blank(pre) && Blank(post) && piece == pre + (t + post)
    requires Trimmed(t) && '=' !in t && Lower(t) == name
    ensures IsDirective(piece, name)
  {
    hide Lower;
    assert post + "" == post;
    assert Spells(piece, name, pre, t, post, None);
  }

  lemma SpelledWithValue(piece: string, name: string, pre: string, t: string, post: string, eq: nat)
    requires Blank(pre) && Blank(post) && piece == pre + (t + post)
    requires eq < |t| && t[eq] == '=' && '=' !in t[..eq]
    requires Lower(Strip(t[..eq])) == name && NameOf(name) != Other
    ensures IsDirective(piece, name)
  {
    var word := Strip(t[..eq]);
    WordIsThere(word, name);
    var lead, gap := StripSplits(t[..eq]);
    hide Strip, Lower, NameOf, Blank, IsDirective;
    var value := CutAt(t, eq);
    Regroup(piece, pre, lead, word, gap, value, post);
    NotInMiddle(lead, word, gap, '=');
    BlankConcat(pre, lead);
    SpellsIt(piece, name, pre + lead, word, gap, value + post);
  }

  lemma CutAt(t: string, n: nat) returns (rest: string)
    requires n < |t|
    ensures t == t[..n] + ([t[n]] + rest)
  {
    rest := t[n + 1..];
  }

  lemma BlankConcat(a: string, b: string)
    requires Blank(a) && Blank(b)
    ensures Blank(a + b)
  {
  }

  lemma SpellsIt(piece: string, name: string, pre: string, word: string, gap: string, value: string)
    requires Blank(pre) && Blank(gap) && Trimmed(word) && '=' !in word && Lower(word) == name
    requires piece == pre + (word + (gap + ("=" + value)))
    ensures IsDirective(piece, name)
  {
    hide Lower, Blank;
    assert Spells(piece, name, pre, word, gap, Some(value));
  }

  lemma NotInMiddle(a: string, b: string, c: string, x: char)
    requires x !in a + (b + c)
    ensures x !in b
  {
    forall i | 0 <= i < |b| ensures b[i] != x {
      assert (a + (b + c))[|a| + i] == b[i];
    }
  }

  lemma Regroup(piece: string, pre: string, lead: string, word: string, gap: string, value: string, post: string)
    requires piece == pre + (lead + (word + gap) + ("=" + value) + post)
    ensures piece == (pre + lead) + (word + (gap + ("=" + (value + post))))
  {
  }

  lemma WordIsThere(word: string, name: string)
    requires Lower(word) == name && NameOf(name) != Other
    ensures word != []
  {
    assert NameOf("") == Other;
    assert word == [] ==> name == "";
  }

  // ---------- whole headers ----------

  /** Some comma-separated piece of the header is the directive. */
  ghost predicate Holds(header: string, name: string) {
    exists piece :: piece in Split(header, ',') && IsDirective(piece, name)
  }

  lemma TokenAt(pieces: seq<string>, i: nat)
    requires i < |pieces|
    ensures |ReadTokens(pieces)| == |pieces| && ReadTokens(pieces)[i] == ReadToken(pieces[i])
  {
    MapAt(ReadToken, pieces, i);
    hide Map, Strip, Find, NameOf, ParseInt, Lower;
  }

  lemma MentionsIff(header: string, name: string)
    requires name != [] && NameOf(name) != Other
    ensures Mentions(ReadTokens(Split(header, ',')), NameOf(name)) <==> Holds(header, name)
  {
    var pieces := Split(header, ',');
    var tokens := ReadTokens(pieces);
    hide Split, ReadToken, ReadTokens, NameOf, IsDirective;
    assert |tokens| == |pieces| by {
      TokenAt(pieces, 0);
    }
    if Mentions(tokens, NameOf(name)) {
      var t :| t in tokens && t.name == NameOf(name);
      var i :| 0 <= i < |tokens| && tokens[i] == t;
      TokenAt(pieces, i);
      ReadsName(pieces[i], name);
      assert pieces[i] in pieces;
    }
    if Holds(header, name) {
      var piece :| piece in pieces && IsDirective(piece, name);
      var i :| 0 <= i < |pieces| && pieces[i] == piece;
      TokenAt(pieces, i);
      ReadsName(piece, name);
      assert tokens[i] in tokens;
    }
  }

  /** The names of the directives, as the source spells them. */
  lemma Names()
    ensures NameOf("max-age") == MaxAge && NameOf("s-maxage") == SMaxage
    ensures NameOf("no-cache") == NoCache && NameOf("no-store") == NoStore && NameOf("private") == Private
    ensures NameOf("must-revalidate") == MustRevalidate
    ensures NameOf("stale-while-revalidate") == StaleWhileRevalidate && NameOf("stale-if-error") == StaleIfError
  {
  }

  /** For every header, each flag is set if and only if some piece of the header is that directive. */
  lemma FlagsIff(header: string)
    ensures Parse(header).noCache <==> Holds(header, "no-cache")
    ensures Parse(header).noStore <==> Holds(header, "no-store")
    ensures Parse(header).isPrivate <==> Holds(header, "private")
    ensures Parse(header).mustRevalidate <==> Holds(header, "must-revalidate")
  {
    ApplyAllMeans(ReadTokens(Split(header, ',')));
    Names();
    MentionsIff(header, "no-cache");
    MentionsIff(header, "no-store");
    MentionsIff(header, "private");
    MentionsIff(header, "must-revalidate");
    hide Split, ReadTokens, NameOf, Holds, ApplyAll, Mentions, IsLastValue;
  }

  /** For every header, an answer may be stored if and only if no piece is no-store or private. */
  lemma CacheableIff(header: string)
    ensures Parse(header).IsCacheable() <==> !Holds(header, "no-store") && !Holds(header, "private")
  {
    FlagsIff(header);
  }

  // ---------- numbers ----------

  /** A number in digits, with an optional quote on either side. */
  ghost predicate Numeral(v: string, left: bool, digits: string, right: bool) {
    && digits != [] && AllDigits(digits)
    && v == (if left then "\"" else "") + (digits + if right then "\"" else "")
  }

  /** A value is a number if and only if it is a numeral, up to blanks, and is then what the digits say. */
  lemma ParseIntIff(raw: string)
    ensures ParseInt(raw).Some? <==> exists left, digits, right :: Numeral(Strip(raw), left, digits, right)
    ensures forall left, digits, right :: Numeral(Strip(raw), left, digits, right) ==>
      AllDigits(digits) && ParseInt(raw) == Some(ParseNat(digits))
  {
    var v := Strip(raw);
    hide Strip;
    var left := v != [] && v[0] == '"';
    var body := if left then v[1..] else v;
    var right := body != [] && body[|body| - 1] == '"';
    var digits := if right then body[..|body| - 1] else body;
    assert v == (if left then "\"" else "") + (digits + if right then "\"" else "");
    if ParseInt(raw).Some? {
      assert Numeral(v, left, digits, right);
    }
    forall l, ds, r | Numeral(v, l, ds, r) ensures ds == digits {
      NumeralParts(v, l, ds, r);
    }
  }

  lemma NumeralParts(v: string, left: bool, digits: string, right: bool)
    requires Numeral(v, left, digits, right)
    ensures v != [] && (left <==> v[0] == '"')
    ensures var body := if v[0] == '"' then v[1..] else v;
      body != [] && (right <==> body[|body| - 1] == '"')
      && digits == if body[|body| - 1] == '"' then body[..|body| - 1] else body
  {
    assert IsDigit(digits[0]) && IsDigit(digits[|digits| - 1]);
    var body := digits + if right then "\"" else "";
    assert left ==> v[1..] == body;
    assert !left ==> v == body;
    assert right ==> body[..|body| - 1] == digits;
    assert !right ==> body == digits;
  }

  /** A header that is one directive with a number, in any case, with any blanks and with or without quotes, sets
      exactly its own field to that number; a flag sets its flag, whatever its value; another name sets nothing. */
  lemma NumberSets(piece: string, name: string, pre: string, word: string, gap: string, value: string,
                   left: bool, n: nat, right: bool)
    requires Spells(piece, name, pre, word, gap, Some(value)) && ',' !in piece
    requires Numeral(Strip(value), left, PrintNat(n), right)
    ensures name == "max-age" ==> Parse(piece) == NO_DIRECTIVES.(maxAge := Some(n))
    ensures name == "s-maxage" ==> Parse(piece) == NO_DIRECTIVES.(sMaxage := Some(n))
    ensures name == "stale-while-revalidate" ==> Parse(piece) == NO_DIRECTIVES.(staleWhileRevalidate := Some(n))
    ensures name == "stale-if-error" ==> Parse(piece) == NO_DIRECTIVES.(staleIfError := Some(n))
    ensures NameOf(name) == Other ==> Parse(piece) == NO_DIRECTIVES
  {
    ReadsValue(piece, name, pre, word, gap, value);
    ParseIntIff(value);
    ParsePrint(n);
    Names();
    OnePiece(piece);
    hide ReadToken, NameOf, Strip, ParseInt, PrintNat, Parse;
  }

  lemma OnePiece(piece: string)
    requires ',' !in piece
    ensures Parse(piece) == Apply(NO_DIRECTIVES, ReadToken(piece))
  {
    SplitSingle(piece, ',');
    hide ReadToken, Split;
    var tokens := ReadTokens([piece]);
    assert tokens == [ReadToken(piece)] && tokens[..1] == tokens && tokens[..0] == [];
    ApplyAllSnoc(tokens, 0);
  }

  /** A header that is one directive without a value sets its flag, and nothing else; the directives that need a
      number, and unknown names, set nothing. */
  lemma FlagSets(piece: string, name: string, pre: string, word: string, gap: string)
    requires Spells(piece, name, pre, word, gap, None) && ',' !in piece
    ensures name == "no-cache" ==> Parse(piece) == NO_DIRECTIVES.(noCache := true)
    ensures name == "no-store" ==> Parse(piece) == NO_DIRECTIVES.(noStore := true)
    ensures name == "private" ==> Parse(piece) == NO_DIRECTIVES.(isPrivate := true)
    ensures name == "must-revalidate" ==> Parse(piece) == NO_DIRECTIVES.(mustRevalidate := true)
    ensures name in {"max-age", "s-maxage", "stale-while-revalidate", "stale-if-error"} ==>
      Parse(piece) == NO_DIRECTIVES
    ensures NameOf(name) == Other ==> Parse(piece) == NO_DIRECTIVES
  {
    ReadsFlag(piece, name, pre, word, gap);
    Names();
    OnePiece(piece);
    hide ReadToken, NameOf, Strip, ParseInt, Parse;
  }

  // ---------- times ----------

  /** The time to live: zero with no-cache; else the last valid s-maxage; else the last valid max-age; else the
      default. The stale window: the last valid stale-while-revalidate, else zero. */
  lemma TimesMean(tokens: seq<Token>, defaultTtl: real, s: Option<nat>, m: Option<nat>, w: Option<nat>)
    requires IsLastValue(tokens, SMaxage, s) && IsLastValue(tokens, MaxAge, m)
    requires IsLastValue(tokens, StaleWhileRevalidate, w)
    ensures ApplyAll(tokens).EffectiveTtl(defaultTtl) ==
      if Mentions(tokens, NoCache) then 0.0
      else match s
        case Some(n) => n as real
        case None => match m case Some(n) => n as real case None => defaultTtl
    ensures ApplyAll(tokens).EffectiveStaleWhileRevalidate() == match w case Some(n) => n as real case None => 0.0
  {
    ApplyAllMeans(tokens);
    var d := ApplyAll(tokens);
    LastValueUnique(tokens, SMaxage, s, d.sMaxage);
    LastValueUnique(tokens, MaxAge, m, d.maxAge);
    LastValueUnique(tokens, StaleWhileRevalidate, w, d.staleWhileRevalidate);
  }
}
