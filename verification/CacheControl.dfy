/** Cache-Control parsing (src/infrastructure/cache_control.py). */
module CacheControl {
  import opened Text

  datatype Directives = Directives(
    maxAge: Option<nat>,
    sMaxage: Option<nat>,
    noCache: bool,
    noStore: bool,
    isPrivate: bool,
    mustRevalidate: bool,
    staleWhileRevalidate: Option<nat>,
    staleIfError: Option<nat>
  ) {
    predicate IsCacheable() { !noStore && !isPrivate }

    function EffectiveTtl(defaultTtl: real): real {
      if noCache then 0.0
      else if sMaxage.Some? then sMaxage.value as real
      else if maxAge.Some? then maxAge.value as real
      else defaultTtl
    }

    function EffectiveStaleWhileRevalidate(): real {
      if staleWhileRevalidate.Some? then staleWhileRevalidate.value as real else 0.0
    }
  }

  const NO_DIRECTIVES := Directives(None, None, false, false, false, false, None, None)

  // ---------- reading one comma-separated piece ----------

  /** The value pattern: digits, with an optional quote on either side. */
  function ParseInt(raw: string): Option<nat> {
    var t := Strip(raw);
    var body := if t != [] && t[0] == '"' then t[1..] else t;
    var digits := if body != [] && body[|body| - 1] == '"' then body[..|body| - 1] else body;
    if digits != [] && AllDigits(digits) then Some(ParseNat(digits)) else None
  }

  /** The position of the first c, or the length. */
  function Find(s: string, c: char): (i: nat)
    ensures i <= |s| && c !in s[..i]
    ensures i < |s| ==> s[i] == c
  {
    if s == [] || s[0] == c then 0 else 1 + Find(s[1..], c)
  }

  /** The directive names the parser knows; Other is ignored. */
  datatype Name =
    MaxAge | SMaxage | NoCache | NoStore | Private | MustRevalidate
    | StaleWhileRevalidate | StaleIfError | Other

  function NameOf(key: string): Name {
    if key == "max-age" then MaxAge
    else if key == "s-maxage" then SMaxage
    else if key == "no-cache" then NoCache
    else if key == "no-store" then NoStore
    else if key == "private" then Private
    else if key == "must-revalidate" then MustRevalidate
    else if key == "stale-while-revalidate" then StaleWhileRevalidate
    else if key == "stale-if-error" then StaleIfError
    else Other
  }

  /** A directive with its value, and the number in the value if there is one. */
  datatype Token = Token(name: Name, number: Option<nat>)

  function ReadToken(piece: string): Token {
    var t := Strip(piece);
    var eq := Find(t, '=');
    if t == [] then Token(Other, None)
    else if eq < |t| then Token(NameOf(Lower(Strip(t[..eq]))), ParseInt(Strip(t[eq + 1..])))
    else Token(NameOf(Lower(Strip(t))), ParseInt(""))
  }

  function ReadTokens(pieces: seq<string>): seq<Token> { Map(ReadToken, pieces) }

  // ---------- the fold ----------

  function Keep(parsed: Option<nat>, was: Option<nat>): Option<nat> {
    if parsed.Some? then parsed else was
  }

  /** The effect of one token on the directives read so far. */
  function Apply(d: Directives, t: Token): Directives {
    Directives(
      if t.name == MaxAge then Keep(t.number, d.maxAge) else d.maxAge,
      if t.name == SMaxage then Keep(t.number, d.sMaxage) else d.sMaxage,
      d.noCache || t.name == NoCache,
      d.noStore || t.name == NoStore,
      d.isPrivate || t.name == Private,
      d.mustRevalidate || t.name == MustRevalidate,
      if t.name == StaleWhileRevalidate then Keep(t.number, d.staleWhileRevalidate)
      else d.staleWhileRevalidate,
      if t.name == StaleIfError then Keep(t.number, d.staleIfError) else d.staleIfError)
  }

  function ApplyAll(tokens: seq<Token>): Directives {
    if tokens == [] then NO_DIRECTIVES
    else Apply(ApplyAll(tokens[..|tokens| - 1]), tokens[|tokens| - 1])
  }

  function Parse(header: string): Directives { ApplyAll(ReadTokens(Split(header, ','))) }

  lemma ApplyAllSnoc(tokens: seq<Token>, i: nat)
    requires i < |tokens|
    ensures ApplyAll(tokens[..i + 1]) == Apply(ApplyAll(tokens[..i]), tokens[i])
  {
    assert tokens[..i + 1][..i] == tokens[..i];
  }

  /** parse_cache_control: the loop over its eight locals. */
  method ParseCacheControl(header: string) returns (d: Directives)
    ensures d == Parse(header)
  {
    d := ReadDirectives(ReadTokens(Split(header, ',')));
  }

  method ReadDirectives(tokens: seq<Token>) returns (d: Directives)
    ensures d == ApplyAll(tokens)
  {
    var maxAge: Option<nat>, sMaxage: Option<nat> := None, None;
    var noCache, noStore, isPrivate, mustRevalidate := false, false, false, false;
    var staleWhileRevalidate: Option<nat>, staleIfError: Option<nat> := None, None;
    ghost var read := NO_DIRECTIVES;
    for i := 0 to |tokens|
      invariant read == ApplyAll(tokens[..i])
      invariant maxAge == read.maxAge && sMaxage == read.sMaxage
      invariant noCache == read.noCache && noStore == read.noStore
      invariant isPrivate == read.isPrivate && mustRevalidate == read.mustRevalidate
      invariant staleWhileRevalidate == read.staleWhileRevalidate && staleIfError == read.staleIfError
    {
      ApplyAllSnoc(tokens, i);
      read := Apply(read, tokens[i]);
      var Token(name, parsed) := tokens[i];
      if name == MaxAge { maxAge := Keep(parsed, maxAge); }
      else if name == SMaxage { sMaxage := Keep(parsed, sMaxage); }
      else if name == NoCache { noCache := true; }
      else if name == NoStore { noStore := true; }
      else if name == Private { isPrivate := true; }
      else if name == MustRevalidate { mustRevalidate := true; }
      else if name == StaleWhileRevalidate { staleWhileRevalidate := Keep(parsed, staleWhileRevalidate); }
      else if name == StaleIfError { staleIfError := Keep(parsed, staleIfError); }
    }
    TakeAll(tokens);
    d := Directives(maxAge, sMaxage, noCache, noStore, isPrivate, mustRevalidate,
                    staleWhileRevalidate, staleIfError);
  }

  // ---------- what a header means, without the loop ----------

  /** Some token carries the name. */
  ghost predicate Mentions(tokens: seq<Token>, name: Name) {
    exists t :: t in tokens && t.name == name
  }

  /** The number that a token gives for a name, if it gives one. */
  function Gives(t: Token, name: Name): Option<nat> {
    if t.name == name then t.number else None
  }

  /** v is what the last token with a valid number for the name says, or None if there is none. */
  ghost predicate IsLastValue(tokens: seq<Token>, name: Name, v: Option<nat>) {
    if v.Some? then
      exists i :: 0 <= i < |tokens| && Gives(tokens[i], name) == v
        && forall j :: i < j < |tokens| ==> Gives(tokens[j], name).None?
    else
      forall i :: 0 <= i < |tokens| ==> Gives(tokens[i], name).None?
  }

  /** Flags by presence, numbers by last valid value. */
  ghost predicate Means(tokens: seq<Token>, d: Directives) {
    && (d.noCache <==> Mentions(tokens, NoCache))
    && (d.noStore <==> Mentions(tokens, NoStore))
    && (d.isPrivate <==> Mentions(tokens, Private))
    && (d.mustRevalidate <==> Mentions(tokens, MustRevalidate))
    && IsLastValue(tokens, MaxAge, d.maxAge)
    && IsLastValue(tokens, SMaxage, d.sMaxage)
    && IsLastValue(tokens, StaleWhileRevalidate, d.staleWhileRevalidate)
    && IsLastValue(tokens, StaleIfError, d.staleIfError)
  }

  lemma MentionsSnoc(tokens: seq<Token>, t: Token, name: Name)
    ensures Mentions(tokens + [t], name) <==> Mentions(tokens, name) || t.name == name
  {
    assert t in tokens + [t];
    if Mentions(tokens, name) {
      var u :| u in tokens && u.name == name;
      assert u in tokens + [t];
    }
  }

  lemma LastValueSnoc(tokens: seq<Token>, t: Token, name: Name, v: Option<nat>)
    requires IsLastValue(tokens, name, v)
    ensures IsLastValue(tokens + [t], name, Keep(Gives(t, name), v))
  {
    var more := tokens + [t];
    if Gives(t, name).Some? {
      assert Gives(more[|tokens|], name) == Gives(t, name);
    } else if v.Some? {
      var i :| 0 <= i < |tokens| && Gives(tokens[i], name) == v
        && forall j :: i < j < |tokens| ==> Gives(tokens[j], name).None?;
      assert Gives(more[i], name) == v;
    }
  }

  /** The fold computes exactly the declarative meaning. */
  lemma {:induction false} ApplyAllMeans(tokens: seq<Token>)
    ensures Means(tokens, ApplyAll(tokens))
  {
    if tokens != [] {
      var init, t := tokens[..|tokens| - 1], tokens[|tokens| - 1];
      ApplyAllMeans(init);
      var d := ApplyAll(init);
      assert init + [t] == tokens;
      MentionsSnoc(init, t, NoCache);
      MentionsSnoc(init, t, NoStore);
      MentionsSnoc(init, t, Private);
      MentionsSnoc(init, t, MustRevalidate);
      LastValueSnoc(init, t, MaxAge, d.maxAge);
      LastValueSnoc(init, t, SMaxage, d.sMaxage);
      LastValueSnoc(init, t, StaleWhileRevalidate, d.staleWhileRevalidate);
      LastValueSnoc(init, t, StaleIfError, d.staleIfError);
    }
  }

  lemma LastValueUnique(tokens: seq<Token>, name: Name, v: Option<nat>, w: Option<nat>)
    requires IsLastValue(tokens, name, v) && IsLastValue(tokens, name, w)
    ensures v == w
  {
    if v.Some? && w.Some? {
      var i :| 0 <= i < |tokens| && Gives(tokens[i], name) == v
        && forall j :: i < j < |tokens| ==> Gives(tokens[j], name).None?;
      var k :| 0 <= k < |tokens| && Gives(tokens[k], name) == w
        && forall j :: k < j < |tokens| ==> Gives(tokens[j], name).None?;
    }
  }

  /** The meaning pins down the directives. */
  lemma MeansUnique(tokens: seq<Token>, d: Directives, e: Directives)
    requires Means(tokens, d) && Means(tokens, e)
    ensures d == e
  {
    LastValueUnique(tokens, MaxAge, d.maxAge, e.maxAge);
    LastValueUnique(tokens, SMaxage, d.sMaxage, e.sMaxage);
    LastValueUnique(tokens, StaleWhileRevalidate, d.staleWhileRevalidate, e.staleWhileRevalidate);
    LastValueUnique(tokens, StaleIfError, d.staleIfError, e.staleIfError);
  }

  // ---------- combining headers ----------

  /** Two parses combined: numbers right-biased, flags or-ed. */
  function Merge(a: Directives, b: Directives): Directives {
    Directives(
      Keep(b.maxAge, a.maxAge), Keep(b.sMaxage, a.sMaxage),
      a.noCache || b.noCache, a.noStore || b.noStore,
      a.isPrivate || b.isPrivate, a.mustRevalidate || b.mustRevalidate,
      Keep(b.staleWhileRevalidate, a.staleWhileRevalidate),
      Keep(b.staleIfError, a.staleIfError))
  }

  lemma {:induction false} ApplyAllConcat(a: seq<Token>, b: seq<Token>)
    ensures ApplyAll(a + b) == Merge(ApplyAll(a), ApplyAll(b))
  {
    if b == [] {
      assert a + b == a;
    } else {
      var init := b[..|b| - 1];
      assert (a + b)[..|a + b| - 1] == a + init;
      ApplyAllConcat(a, init);
    }
  }

  /** A header sent in two fields reads as the merge of the two readings, for all strings. */
  lemma ParseConcat(h1: string, h2: string)
    ensures Parse(h1 + "," + h2) == Merge(Parse(h1), Parse(h2))
    ensures Parse(h1 + "," + h2).IsCacheable() <==> Parse(h1).IsCacheable() && Parse(h2).IsCacheable()
  {
    SplitConcat(h1, h2, ',');
    MapConcat(ReadToken, Split(h1, ','), Split(h2, ','));
    ApplyAllConcat(ReadTokens(Split(h1, ',')), ReadTokens(Split(h2, ',')));
  }

  /** No two tokens carry the same known name. */
  ghost predicate DistinctNames(tokens: seq<Token>) {
    forall i, j :: 0 <= i < j < |tokens| && tokens[i].name == tokens[j].name ==> tokens[i].name == Other
  }

  /** With distinct names, "the last value" does not depend on the order. */
  lemma SameLastValue(a: seq<Token>, b: seq<Token>, name: Name, v: Option<nat>)
    requires forall t :: t in a <==> t in b
    requires DistinctNames(b) && name != Other
    requires IsLastValue(a, name, v)
    ensures IsLastValue(b, name, v)
  {
    if v.Some? {
      var i :| 0 <= i < |a| && Gives(a[i], name) == v;
      assert a[i] in b;
      var k :| 0 <= k < |b| && b[k] == a[i];
      assert Gives(b[k], name) == v;
    } else {
      forall k | 0 <= k < |b| ensures Gives(b[k], name).None? {
        assert b[k] in a;
      }
    }
  }

  /** Directives with distinct names may be permuted freely. */
  lemma ApplyAllPermuted(a: seq<Token>, b: seq<Token>)
    requires multiset(a) == multiset(b) && DistinctNames(b)
    ensures ApplyAll(a) == ApplyAll(b)
  {
    var d := ApplyAll(a);
    SameElements(a, b);
    ApplyAllMeans(a);
    ApplyAllMeans(b);
    SameLastValue(a, b, MaxAge, d.maxAge);
    SameLastValue(a, b, SMaxage, d.sMaxage);
    SameLastValue(a, b, StaleWhileRevalidate, d.staleWhileRevalidate);
    SameLastValue(a, b, StaleIfError, d.staleIfError);
    MeansUnique(b, d, ApplyAll(b));
  }

  /** Headers with the same directives in any order parse alike when no known directive is repeated. */
  lemma ParsePermuted(h1: string, h2: string)
    requires multiset(ReadTokens(Split(h1, ','))) == multiset(ReadTokens(Split(h2, ',')))
    requires DistinctNames(ReadTokens(Split(h2, ',')))
    ensures Parse(h1) == Parse(h2)
  {
    ApplyAllPermuted(ReadTokens(Split(h1, ',')), ReadTokens(Split(h2, ',')));
  }

  /** A single directive without a value, spelled in lower case. */
  ghost predicate Bare(s: string) {
    && s != [] && !IsSpace(s[0]) && !IsSpace(s[|s| - 1]) && '=' !in s && ',' !in s
    && forall i :: 0 <= i < |s| ==> LowerChar(s[i]) == s[i]
  }

  lemma BareToken(s: string)
    requires Bare(s)
    ensures ReadToken(s).name == NameOf(s)
  {
    StripNothing(s);
    hide Strip, Find, Lower, NameOf, ParseInt;
    assert Lower(s) == s;
  }

  /** A header that is one such directive. */
  lemma BareHeader(s: string)
    requires Bare(s)
    ensures exists number :: Parse(s) == Apply(NO_DIRECTIVES, Token(NameOf(s), number))
  {
    BareToken(s);
    SplitSingle(s, ',');
    hide ReadToken, Split, NameOf;
    var t := ReadToken(s);
    var tokens := ReadTokens([s]);
    assert tokens == [t] && tokens[..1] == tokens && tokens[..0] == [];
    ApplyAllSnoc(tokens, 0);
    assert Parse(s) == Apply(NO_DIRECTIVES, Token(NameOf(s), t.number));
  }

  /** The header "no-store" alone forbids storing. */
  lemma NoStoreForbids()
    ensures !Parse("no-store").IsCacheable()
  {
    hide Parse;
    assert Bare("no-store");
    BareHeader("no-store");
  }

  /** The header "no-cache" alone allows storing, with a time to live of zero. */
  lemma NoCacheAllows(defaultTtl: real)
    ensures Parse("no-cache").IsCacheable() && Parse("no-cache").noCache
    ensures Parse("no-cache").EffectiveTtl(defaultTtl) == 0.0
    ensures Parse("no-cache").EffectiveStaleWhileRevalidate() == 0.0
  {
    hide Parse;
    assert Bare("no-cache");
    BareHeader("no-cache");
  }
}
