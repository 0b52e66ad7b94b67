/** The directory names of the hot/cold store: exactly which keys share one, and so over which keys the shipped store
    refines an unbounded map (src/infrastructure/cache/tiered_store.py). */
module DirectoryNames {
  import opened Text
  import opened Entities
  import opened LruContents
  import opened TieredContents
  import opened TieredRefinement

  // ---------- words ----------

  /** A character that does not survive in a directory name by itself. */
  predicate Separates(c: char) { Unsafe(c) || c == '_' }

  /** The maximal runs of other characters, in order. */
  function Words(s: string): seq<string> {
    if s == [] then []
    else if Separates(s[0]) then Words(s[1..])
    else if |s| == 1 || Separates(s[1]) then [[s[0]]] + Words(s[1..])
    else
      var rest := Words(s[1..]);
      if rest == [] then [[s[0]]] else [[s[0]] + rest[0]] + rest[1..]
  }

  /** Words are what they are said to be: not empty, without separators. */
  ghost predicate AreWords(words: seq<string>) {
    forall i :: 0 <= i < |words| ==> words[i] != [] && forall c :: c in words[i] ==> !Separates(c)
  }

  lemma {:induction false} WordsAreWords(s: string)
    ensures AreWords(Words(s))
    ensures s != [] && !Separates(s[0]) ==> Words(s) != [] && Words(s)[0][0] == s[0]
  {
    if s != [] {
      WordsAreWords(s[1..]);
    }
  }

  // ---------- what each pass does ----------

  lemma {:induction false} ReplacedWords(s: string)
    ensures Words(Replaced(s)) == Words(s) && |Replaced(s)| == |s|
    ensures forall i :: 0 <= i < |s| ==> Replaced(s)[i] == if Unsafe(s[i]) then '_' else s[i]
  {
    if s != [] {
      ReplacedWords(s[1..]);
      var r := Replaced(s);
      assert r[1..] == Replaced(s[1..]);
      forall i | 0 <= i < |s| ensures r[i] == if Unsafe(s[i]) then '_' else s[i] {
        if i > 0 {
          assert r[i] == Replaced(s[1..])[i - 1];
        }
      }
    }
  }

  /** Only underscores separate. */
  ghost predicate Plain(s: string) { forall i :: 0 <= i < |s| ==> (Separates(s[i]) <==> s[i] == '_') }

  /** The words joined by underscores. */
  function Joined(words: seq<string>): string { if words == [] then [] else Join(words, '_') }

  function Edge(yes: bool): string { if yes then "_" else "" }

  /** What collapsing gives: the words joined, with an underscore at each end where the string has one. */
  function Shape(s: string): string {
    Edge(s != [] && s[0] == '_') + Joined(Words(s)) + Edge(Words(s) != [] && s != [] && s[|s| - 1] == '_')
  }

  lemma {:induction false} CollapsedShape(s: string)
    requires Plain(s)
    ensures Collapsed(s) == Shape(s)
  {
    if |s| == 1 {
      assert s == [s[0]] && s[1..] == [];
      assert Words(s[1..]) == [];
    } else if |s| >= 2 {
      CollapsedShape(s[1..]);
      WordsAreWords(s[1..]);
      if s[0] == '_' {
        AfterSeparator(s);
      } else if s[1] == '_' {
        NewWord(s);
      } else {
        LongerWord(s);
      }
    }
  }

  /** An underscore before a word, or before another underscore. */
  lemma AfterSeparator(s: string)
    requires |s| >= 2 && Plain(s) && s[0] == '_'
    ensures Shape(s) == if s[1] == '_' then Shape(s[1..]) else [s[0]] + Shape(s[1..])
  {
    assert Words(s) == Words(s[1..]) && Separates(s[0]);
    assert s[1..][|s| - 2] == s[|s| - 1];
    if s[1] != '_' {
      assert Edge(true) == [s[0]];
      assert Shape(s) == [s[0]] + ("" + Joined(Words(s[1..])) + Edge(Words(s) != [] && s[|s| - 1] == '_'));
    }
  }

  /** A word of one character before an underscore. */
  lemma NewWord(s: string)
    requires |s| >= 2 && Plain(s) && s[0] != '_' && s[1] == '_'
    ensures Shape(s) == [s[0]] + Shape(s[1..])
  {
    var rest := Words(s[1..]);
    assert Separates(s[1]) && !Separates(s[0]);
    assert s[1..][|s| - 2] == s[|s| - 1];
    assert Words(s) == [[s[0]]] + rest;
    if rest == [] {
      NoWords(s[1..]);
      assert s[|s| - 1] == '_';
      assert Join([[s[0]]], '_') == [s[0]];
    } else {
      assert ([[s[0]]] + rest)[1..] == rest;
      assert Join([[s[0]]] + rest, '_') == [s[0]] + ['_'] + Join(rest, '_');
    }
  }

  lemma {:induction false} NoWords(s: string)
    requires Words(s) == []
    ensures forall i :: 0 <= i < |s| ==> Separates(s[i])
  {
    if s != [] {
      NoWords(s[1..]);
    }
  }

  /** One more character in front of a word. */
  lemma LongerWord(s: string)
    requires |s| >= 2 && Plain(s) && s[0] != '_' && s[1] != '_'
    ensures Shape(s) == [s[0]] + Shape(s[1..])
  {
    var rest := Words(s[1..]);
    WordsAreWords(s[1..]);
    assert !Separates(s[0]) && !Separates(s[1]) && s[1..][0] == s[1];
    assert s[1..][|s| - 2] == s[|s| - 1];
    var longer := [[s[0]] + rest[0]] + rest[1..];
    assert Words(s) == longer;
    if |rest| > 1 {
      assert longer[1..] == rest[1..];
      assert Join(longer, '_') == [s[0]] + rest[0] + ['_'] + Join(rest[1..], '_');
    }
    assert Join(longer, '_') == [s[0]] + Join(rest, '_');
  }

  /** Joined words neither begin nor end with an underscore. */
  lemma {:induction false} JoinedEnds(words: seq<string>)
    requires words != [] && AreWords(words)
    ensures var j := Join(words, '_'); j != [] && j[0] != '_' && j[|j| - 1] != '_'
  {
    var first := words[0];
    assert first[0] in first && first[|first| - 1] in first;
    if |words| > 1 {
      JoinedEnds(words[1..]);
    }
  }

  lemma StripEnds(j: string, left: bool, right: bool)
    requires j != [] && j[0] != '_' && j[|j| - 1] != '_'
    ensures StripUnderscores(Edge(left) + j + Edge(right)) == j
  {
    var tail := j + Edge(right);
    assert right ==> tail[..|tail| - 1] == j;
    assert !right ==> tail == j;
    assert StripUnderscores(j) == j;
    assert StripUnderscores(tail) == j;
    var s := Edge(left) + tail;
    assert s == Edge(left) + j + Edge(right);
    assert left ==> s[1..] == tail;
    assert !left ==> s == tail;
  }

  /** A directory name is the words of its key joined by underscores, or a name of its own if there are none. */
  lemma NameOfWords(key: Key)
    ensures UrlSafeKey(key) == if Words(key) == [] then "_empty_" else Join(Words(key), '_')
  {
    var r := Replaced(key);
    ReplacedWords(key);
    assert Plain(r);
    CollapsedShape(r);
    WordsAreWords(r);
    if Words(r) == [] {
      if r != [] {
        NoWords(r);
      }
      OnlyUnderscore(r);
    } else {
      JoinedEnds(Words(r));
      StripEnds(Join(Words(r), '_'), r[0] == '_', r[|r| - 1] == '_');
    }
  }

  lemma OnlyUnderscore(s: string)
    requires Words(s) == [] && (s != [] ==> s[0] == '_')
    ensures StripUnderscores(Shape(s)) == []
  {
    assert Shape(s) == Edge(s != []);
    assert StripUnderscores("") == [];
    assert ("_")[1..] == "";
  }

  // ---------- exactly which keys share a directory ----------

  /** Two keys share a directory if and only if they have the same words in the same order. */
  lemma SameDirectoryIff(k1: Key, k2: Key)
    ensures UrlSafeKey(k1) == UrlSafeKey(k2) <==> Words(k1) == Words(k2)
  {
    NameOfWords(k1);
    NameOfWords(k2);
    NameDetermines(k1);
    NameDetermines(k2);
  }

  lemma NameDetermines(key: Key)
    ensures Words(key) != [] ==> Join(Words(key), '_') != "_empty_"
    ensures Words(key) != [] ==> Split(Join(Words(key), '_'), '_') == Words(key)
  {
    WordsAreWords(key);
    if Words(key) != [] {
      JoinedEnds(Words(key));
      SplitOfJoin(Words(key), '_');
    }
  }

  /** No two of the keys have the same words. */
  ghost predicate DistinctWords(keys: set<Key>) {
    forall k1, k2 :: k1 in keys && k2 in keys && Words(k1) == Words(k2) ==> k1 == k2
  }

  /** The shipped hot/cold store refines the unbounded map over every run that names only these keys if and only if
      no two of the keys have the same words. */
  lemma ShippedRefinesIff(cap: int, keys: set<Key>)
    ensures (forall evs | RunOver(evs, keys) && evs != [] :: LastAllowed(UrlSafeKey, cap, evs))
            <==> DistinctWords(keys)
  {
    RefinesIffDistinctDirectories(UrlSafeKey, cap, keys);
    hide UrlSafeKey, Words, LastAllowed, RunOver;
    forall k1, k2 ensures UrlSafeKey(k1) == UrlSafeKey(k2) <==> Words(k1) == Words(k2) {
      SameDirectoryIff(k1, k2);
    }
  }

  // ---------- which characters ----------

  /** The unreserved characters of section 2.3 of RFC 3986. */
  predicate Unreserved(c: char) {
    'a' <= c <= 'z' || 'A' <= c <= 'Z' || IsDigit(c) || c == '-' || c == '.' || c == '_' || c == '~'
  }

  /** The characters that are replaced are the printable ASCII ones that are not unreserved. */
  lemma UnsafeIsReserved(c: char)
    ensures Unsafe(c) <==> ' ' <= c <= '~' && !Unreserved(c)
  {
  }

  /** No character of a directory name would be replaced. */
  lemma NamesArePlain(key: Key)
    ensures forall c :: c in UrlSafeKey(key) ==> !Unsafe(c)
  {
    NameOfWords(key);
    WordsAreWords(key);
    if Words(key) == [] {
      assert forall c :: c in "_empty_" ==> c == '_' || 'a' <= c <= 'z';
    } else {
      JoinIsPlain(Words(key));
    }
  }

  lemma {:induction false} JoinIsPlain(words: seq<string>)
    requires words != [] && AreWords(words)
    ensures forall c :: c in Join(words, '_') ==> !Unsafe(c)
  {
    assert words[0] != [];
    if |words| > 1 {
      JoinIsPlain(words[1..]);
    }
  }
}
