/** The JavaScript string operations the core relies on: `trim`, the `\s`
    class of regular expressions, `toLowerCase` (ASCII letters),
    `startsWith`, `slice` and `split` on a single character. */
module Text {

  /** JavaScript's WhiteSpace and LineTerminator characters: the set that
      `String.prototype.trim` removes and that `\s` matches. */
  predicate IsWhitespace(c: char) {
    if c <= ' ' then
      c == ' ' || '\t' <= c <= '\r'
    else
      '\U{00A0}' <= c
      && (c == '\U{00A0}' || c == '\U{1680}' || ('\U{2000}' <= c <= '\U{200A}')
          || c == '\U{2028}' || c == '\U{2029}' || c == '\U{202F}' || c == '\U{205F}'
          || c == '\U{3000}' || c == '\U{FEFF}')
  }

  lemma SpaceIsWhitespace()
    ensures IsWhitespace(' ')
  {
  }

  /** No visible ASCII character (such as `@` or `.`) is whitespace. */
  lemma VisibleAsciiNotWhitespace(c: char)
    requires '!' <= c <= '~'
    ensures !IsWhitespace(c)
  {
  }

  predicate AllWhitespace(s: string) {
    forall i :: 0 <= i < |s| ==> IsWhitespace(s[i])
  }

  /** `s` with its leading whitespace removed. */
  function TrimStart(s: string): (r: string)
    ensures |r| <= |s|
    ensures r != [] ==> !IsWhitespace(r[0])
  {
    if s != [] && IsWhitespace(s[0]) then TrimStart(s[1..]) else s
  }

  /** What `TrimStart` keeps is a suffix of `s`, and what it drops is
      whitespace. */
  lemma {:induction false} TrimStartShape(s: string)
    ensures var r := TrimStart(s); r == s[|s| - |r|..] && AllWhitespace(s[..|s| - |r|])
    decreases |s|
  {
    if s != [] && IsWhitespace(s[0]) {
      TrimStartShape(s[1..]);
      var r := TrimStart(s[1..]);
      assert s[..|s| - |r|] == [s[0]] + s[1..][..|s[1..]| - |r|];
      assert s[1..][|s[1..]| - |r|..] == s[|s| - |r|..];
    }
  }

  /** `s` with its trailing whitespace removed. */
  function TrimEnd(s: string): (r: string)
    ensures |r| <= |s|
    ensures r != [] ==> !IsWhitespace(r[|r| - 1])
  {
    if s != [] && IsWhitespace(s[|s| - 1]) then TrimEnd(s[..|s| - 1]) else s
  }

  /** What `TrimEnd` keeps is a prefix of `s`, and what it drops is
      whitespace. */
  lemma {:induction false} TrimEndShape(s: string)
    ensures var r := TrimEnd(s); r == s[..|r|] && AllWhitespace(s[|r|..])
    decreases |s|
  {
    if s != [] && IsWhitespace(s[|s| - 1]) {
      TrimEndShape(s[..|s| - 1]);
      var r := TrimEnd(s[..|s| - 1]);
      assert s[|r|..] == s[..|s| - 1][|r|..] + [s[|s| - 1]];
      assert s[..|s| - 1][..|r|] == s[..|r|];
    }
  }

  /** `String.prototype.trim`. */
  function Trim(s: string): (r: string)
    ensures |r| <= |s|
    ensures r != [] ==> !IsWhitespace(r[0]) && !IsWhitespace(r[|r| - 1])
  {
    TrimEndOfStart(s);
    TrimEnd(TrimStart(s))
  }

  /** Trimming only removes characters. */
  lemma TrimMembers(s: string)
    ensures forall c :: c in Trim(s) ==> c in s
  {
    TrimEndOfStart(s);
  }

  /** Trimming both ends keeps a middle slice of `s` whose end characters
      are not whitespace. */
  lemma TrimEndOfStart(s: string)
    ensures var r := TrimEnd(TrimStart(s));
      |r| <= |s| && (r != [] ==> !IsWhitespace(r[0]) && !IsWhitespace(r[|r| - 1]))
      && forall c :: c in r ==> c in s
  {
    var t := TrimStart(s);
    var r := TrimEnd(t);
    TrimStartShape(s);
    TrimEndShape(t);
    SliceMembers(s, t, r);
    if r != [] {
      assert r[0] == t[0];
    }
  }

  /** A prefix of a suffix holds only characters of the whole. */
  lemma SliceMembers(s: string, t: string, r: string)
    requires |t| <= |s| && t == s[|s| - |t|..] && |r| <= |t| && r == t[..|r|]
    ensures forall c :: c in r ==> c in s
  {
    forall c | c in r ensures c in s {
      var i :| 0 <= i < |r| && r[i] == c;
      assert r[i] == s[|s| - |t| + i];
    }
  }

  /** A line is blank after trimming iff it consists of whitespace only. */
  lemma TrimEmptyIffBlank(s: string)
    ensures Trim(s) == [] <==> AllWhitespace(s)
  {
    var t := TrimStart(s);
    TrimStartShape(s);
    TrimEndShape(t);
    assert Trim(s) == [] <==> t == [];
    assert s[..|s|] == s;
  }

  function LowerChar(c: char): char {
    if 'A' <= c <= 'Z' then (c as int + 32) as char else c
  }

  /** Lowercasing never turns a visible character into whitespace. */
  lemma LowerKeepsVisible(c: char)
    requires !IsWhitespace(c)
    ensures !IsWhitespace(LowerChar(c))
  {
    if 'A' <= c <= 'Z' {
      VisibleAsciiNotWhitespace(LowerChar(c));
    }
  }

  /** `toLowerCase` on ASCII letters; every other character is kept. */
  function ToLower(s: string): (r: string)
    ensures |r| == |s|
    ensures forall i :: 0 <= i < |s| ==> r[i] == LowerChar(s[i])
  {
    seq(|s|, i requires 0 <= i < |s| => LowerChar(s[i]))
  }

  lemma ToLowerIdempotent(s: string)
    ensures ToLower(ToLower(s)) == ToLower(s)
  {
  }

  predicate StartsWith(s: string, prefix: string) {
    |prefix| <= |s| && s[..|prefix|] == prefix
  }

  /** `String.prototype.split` on one separator character: the pieces
      between separators, in order, empty pieces included. */
  function Split(s: string, d: char): (parts: seq<string>)
    ensures |parts| >= 1
    ensures forall i :: 0 <= i < |parts| ==> d !in parts[i]
    decreases |s|
  {
    if s == [] then [""]
    else
      var rest := Split(s[1..], d);
      if s[0] == d then [""] + rest
      else [[s[0]] + rest[0]] + rest[1..]
  }

  /** `Array.prototype.join` with a one-character separator. */
  function Join(parts: seq<string>, d: char): string
    requires |parts| >= 1
  {
    if |parts| == 1 then parts[0] else parts[0] + [d] + Join(parts[1..], d)
  }

  /** Splitting loses nothing: joining the pieces back gives the input. */
  lemma {:induction false} SplitJoin(s: string, d: char)
    ensures Join(Split(s, d), d) == s
    decreases |s|
  {
    if s != [] {
      var rest := Split(s[1..], d);
      SplitJoin(s[1..], d);
      if s[0] == d {
        assert Split(s, d) == [""] + rest;
        assert ([""] + rest)[1..] == rest;
      } else {
        var parts := [[s[0]] + rest[0]] + rest[1..];
        assert Split(s, d) == parts;
        if |rest| == 1 {
          assert Join(parts, d) == [s[0]] + rest[0];
        } else {
          assert parts[1..] == rest[1..];
          assert Join(rest, d) == rest[0] + [d] + Join(rest[1..], d);
        }
      }
    }
  }

  function Occurrences(s: string, d: char): nat {
    if s == [] then 0 else (if s[0] == d then 1 else 0) + Occurrences(s[1..], d)
  }

  /** One more piece than there are separators. */
  lemma {:induction false} SplitLength(s: string, d: char)
    ensures |Split(s, d)| == Occurrences(s, d) + 1
    decreases |s|
  {
    if s != [] {
      SplitLength(s[1..], d);
    }
  }

  /** The pieces after the first: a text `a + [d] + b` with no separator
      in `a` splits into `a` followed by the pieces of `b`. */
  lemma {:induction false} SplitAtFirst(a: string, b: string, d: char)
    requires d !in a
    ensures Split(a + [d] + b, d) == [a] + Split(b, d)
    decreases |a|
  {
    if a == [] {
      assert a + [d] + b == [d] + b;
      assert ([d] + b)[1..] == b;
    } else {
      var s := a + [d] + b;
      assert s[0] == a[0];
      assert s[1..] == a[1..] + [d] + b;
      SplitAtFirst(a[1..], b, d);
      assert [a[0]] + a[1..] == a;
    }
  }

  /** A text without the separator is a single piece. */
  lemma {:induction false} SplitWithout(s: string, d: char)
    requires d !in s
    ensures Split(s, d) == [s]
    decreases |s|
  {
    if s != [] {
      SplitWithout(s[1..], d);
      assert [s[0]] + s[1..] == s;
    }
  }
}
