/** Option, Result and the ASCII string operations that the parsers rely on. */
module Text {

  datatype Option<+T> = None | Some(value: T)

  datatype Result<+T, +E> = Ok(value: T) | Err(error: E)

  // ---------- sequences ----------

  function Map<A, B>(f: A -> B, s: seq<A>): (r: seq<B>)
    ensures |r| == |s|
  {
    if s == [] then [] else [f(s[0])] + Map(f, s[1..])
  }

  lemma {:induction false} MapAt<A, B>(f: A -> B, s: seq<A>, i: nat)
    requires i < |s|
    ensures Map(f, s)[i] == f(s[i])
  {
    if i > 0 {
      MapAt(f, s[1..], i - 1);
    }
  }

  lemma {:induction false} MapConcat<A, B>(f: A -> B, a: seq<A>, b: seq<A>)
    ensures Map(f, a + b) == Map(f, a) + Map(f, b)
  {
    if a == [] {
      assert a + b == b;
    } else {
      assert (a + b)[1..] == a[1..] + b;
      MapConcat(f, a[1..], b);
    }
  }

  lemma TakeAll<T>(s: seq<T>)
    ensures s[..|s|] == s
  {
  }

  lemma SameElements<T>(a: seq<T>, b: seq<T>)
    requires multiset(a) == multiset(b)
    ensures forall t :: t in a <==> t in b
  {
    forall t ensures t in a <==> t in b {
      assert t in a <==> t in multiset(a);
      assert t in b <==> t in multiset(b);
    }
  }

  // ---------- whitespace and case ----------

  /** The ASCII characters for which str.isspace() holds. */
  predicate IsSpace(c: char) {
    c == ' ' || '\t' <= c <= '\r' || '\U{1c}' <= c <= '\U{1f}'
  }

  function LStrip(s: string): (r: string)
    ensures r == [] || !IsSpace(r[0])
    ensures |r| <= |s|
  {
    if s != [] && IsSpace(s[0]) then LStrip(s[1..]) else s
  }

  function RStrip(s: string): (r: string)
    ensures r == [] || !IsSpace(r[|r| - 1])
    ensures |r| <= |s| && (r != [] ==> r[0] == s[0])
  {
    if s != [] && IsSpace(s[|s| - 1]) then RStrip(s[..|s| - 1]) else s
  }

  function Strip(s: string): (r: string)
    ensures r == [] || (!IsSpace(r[0]) && !IsSpace(r[|r| - 1]))
  {
    RStrip(LStrip(s))
  }

  function LowerChar(c: char): char {
    if 'A' <= c <= 'Z' then c - 'A' + 'a' else c
  }

  function Lower(s: string): (r: string)
    ensures |r| == |s|
    ensures forall i :: 0 <= i < |s| ==> r[i] == LowerChar(s[i])
  {
    if s == [] then [] else [LowerChar(s[0])] + Lower(s[1..])
  }

  // ---------- blanks ----------

  ghost predicate Blank(s: string) { forall i :: 0 <= i < |s| ==> IsSpace(s[i]) }

  /** Not empty, and no blank at either end. */
  predicate Trimmed(s: string) { s != [] && !IsSpace(s[0]) && !IsSpace(s[|s| - 1]) }

  lemma {:induction false} LStripBlank(pre: string, s: string)
    requires Blank(pre)
    ensures LStrip(pre + s) == LStrip(s)
  {
    if pre == [] {
      assert pre + s == s;
    } else {
      assert (pre + s)[1..] == pre[1..] + s;
      LStripBlank(pre[1..], s);
    }
  }

  /** Blanks at the end go, and nothing goes before something that is not blank. */
  lemma {:induction false} RStripAfter(y: string, rest: string)
    requires y != [] && !IsSpace(y[|y| - 1])
    ensures RStrip(y + rest) == y + RStrip(rest)
  {
    var s := y + rest;
    if rest == [] {
      assert s == y && y + [] == y;
    } else {
      assert s[|s| - 1] == rest[|rest| - 1];
      if IsSpace(rest[|rest| - 1]) {
        assert s[..|s| - 1] == y + rest[..|rest| - 1];
        RStripAfter(y, rest[..|rest| - 1]);
      }
    }
  }

  lemma {:induction false} RStripBlank(post: string)
    requires Blank(post)
    ensures RStrip(post) == []
  {
    if post != [] {
      RStripBlank(post[..|post| - 1]);
    }
  }

  lemma StripPadded(pre: string, s: string, post: string)
    requires Blank(pre) && Trimmed(s) && Blank(post)
    ensures Strip(pre + (s + post)) == s
  {
    LStripBlank(pre, s + post);
    assert (s + post)[0] == s[0];
    assert LStrip(s + post) == s + post;
    RStripAfter(s, post);
    RStripBlank(post);
    assert s + [] == s;
  }

  lemma StripAllBlank(s: string)
    requires Blank(s)
    ensures Strip(s) == []
  {
    LStripBlank(s, []);
    assert s + [] == s;
  }

  lemma {:induction false} LStripSplits(s: string) returns (pre: string)
    ensures Blank(pre) && s == pre + LStrip(s)
  {
    if s != [] && IsSpace(s[0]) {
      var rest := LStripSplits(s[1..]);
      pre := [s[0]] + rest;
      var tail := LStrip(s[1..]);
      hide LStrip;
      assert [s[0]] + rest + tail == [s[0]] + (rest + tail);
      assert s == [s[0]] + s[1..];
    } else {
      pre := [];
    }
  }

  lemma {:induction false} RStripSplits(s: string) returns (post: string)
    ensures Blank(post) && s == RStrip(s) + post
  {
    if s != [] && IsSpace(s[|s| - 1]) {
      var rest := RStripSplits(s[..|s| - 1]);
      post := rest + [s[|s| - 1]];
      assert s == s[..|s| - 1] + [s[|s| - 1]];
    } else {
      post := [];
      assert s + [] == s;
    }
  }

  /** Stripping takes off blanks and nothing else. */
  lemma StripSplits(s: string) returns (pre: string, post: string)
    ensures Blank(pre) && Blank(post) && s == pre + (Strip(s) + post)
    ensures Strip(s) == [] || Trimmed(Strip(s))
  {
    pre := LStripSplits(s);
    post := RStripSplits(LStrip(s));
  }

  lemma StripNothing(s: string)
    requires s == [] || (!IsSpace(s[0]) && !IsSpace(s[|s| - 1]))
    ensures Strip(s) == s
  {
  }

  /** The blanks of ASCII: tab, line feed, vertical tab, form feed, carriage return, the four separators, space. */
  lemma WhichAreBlank(c: char)
    requires c < '\U{80}'
    ensures IsSpace(c) <==> c as int in {9, 10, 11, 12, 13, 28, 29, 30, 31, 32}
  {
  }

  /** Lower-casing changes nothing but the case of letters: two characters are the same in lower case exactly if they
      are the same or one letter in two cases, and the result is never a capital. */
  lemma LowerMeans(c: char, d: char)
    ensures LowerChar(c) == LowerChar(d) <==>
      || c == d
      || ('A' <= c <= 'Z' && d as int == c as int + 32)
      || ('A' <= d <= 'Z' && c as int == d as int + 32)
    ensures !('A' <= LowerChar(c) <= 'Z')
  {
  }

  // ---------- split and join ----------

  /** str.split(c): always at least one part. */
  function Split(s: string, c: char): (parts: seq<string>)
    ensures |parts| >= 1
  {
    if s == [] then [""]
    else if s[0] == c then [""] + Split(s[1..], c)
    else
      var rest := Split(s[1..], c);
      [[s[0]] + rest[0]] + rest[1..]
  }

  function Join(parts: seq<string>, c: char): string
    requires |parts| >= 1
  {
    if |parts| == 1 then parts[0] else parts[0] + [c] + Join(parts[1..], c)
  }

  /** Splitting loses nothing, and no part holds the separator. */
  lemma {:induction false} SplitJoin(s: string, c: char)
    ensures Join(Split(s, c), c) == s
    ensures forall part :: part in Split(s, c) ==> c !in part
  {
    if s != [] {
      SplitJoin(s[1..], c);
      var rest := Split(s[1..], c);
      if s[0] == c {
        assert Split(s, c)[1..] == rest;
      } else {
        assert rest[0] in rest;
        assert Split(s, c) == [[s[0]] + rest[0]] + rest[1..];
        hide Split;
        assert Split(s, c)[1..] == rest[1..];
        assert [s[0]] + Join(rest, c) == s;
        forall part | part in Split(s, c) ensures c !in part {
          assert part == [s[0]] + rest[0] || part in rest;
        }
      }
    }
  }

  /** Splitting is a homomorphism from "joined by the separator" to concatenation. */
  lemma {:induction false} SplitConcat(a: string, b: string, c: char)
    ensures Split(a + [c] + b, c) == Split(a, c) + Split(b, c)
  {
    var s := a + [c] + b;
    if a == [] {
      assert s[1..] == b;
    } else {
      assert s[1..] == a[1..] + [c] + b;
      SplitConcat(a[1..], b, c);
    }
  }

  /** A string without the separator is its own only part. */
  lemma {:induction false} SplitSingle(s: string, c: char)
    requires c !in s
    ensures Split(s, c) == [s]
  {
    if s == [] {
      assert s == "";
    } else {
      assert s[0] in s;
      var rest := Split(s[1..], c);
      SplitSingle(s[1..], c);
      assert rest[0] == s[1..] && rest[1..] == [];
      assert [s[0]] + s[1..] == s;
    }
  }

  /** Joining and splitting again gives the parts back, if none of them holds the separator. */
  lemma {:induction false} SplitOfJoin(parts: seq<string>, c: char)
    requires |parts| >= 1 && forall i :: 0 <= i < |parts| ==> c !in parts[i]
    ensures Split(Join(parts, c), c) == parts
  {
    if |parts| == 1 {
      SplitSingle(parts[0], c);
    } else {
      var rest := parts[1..];
      SplitOfJoin(rest, c);
      SplitConcat(parts[0], Join(rest, c), c);
      SplitSingle(parts[0], c);
      assert [parts[0]] + rest == parts;
    }
  }

  // ---------- decimal numbers ----------

  predicate IsDigit(c: char) { '0' <= c <= '9' }

  predicate AllDigits(s: string) { forall i :: 0 <= i < |s| ==> IsDigit(s[i]) }

  /** int(s) for a string of digits. */
  function ParseNat(s: string): nat
    requires AllDigits(s)
  {
    if s == [] then 0
    else ParseNat(s[..|s| - 1]) * 10 + (s[|s| - 1] as int - '0' as int)
  }

  /** str(n) for a natural number. */
  function PrintNat(n: nat): (s: string)
    ensures |s| > 0 && AllDigits(s)
  {
    var last := [(n % 10 + '0' as int) as char];
    if n < 10 then last else PrintNat(n / 10) + last
  }

  /** str(n) for any integer. */
  function PrintInt(n: int): string {
    if n < 0 then "-" + PrintNat(-n) else PrintNat(n)
  }

  lemma {:induction false} ParsePrint(n: nat)
    ensures ParseNat(PrintNat(n)) == n
  {
    var s := PrintNat(n);
    if n < 10 {
      assert s[..|s| - 1] == [];
    } else {
      ParsePrint(n / 10);
      assert s[..|s| - 1] == PrintNat(n / 10);
    }
  }

  /** The number of leading digits. */
  function DigitRun(s: string): (n: nat)
    ensures n <= |s| && AllDigits(s[..n])
    ensures n < |s| ==> !IsDigit(s[n])
  {
    if s != [] && IsDigit(s[0]) then 1 + DigitRun(s[1..]) else 0
  }
}
