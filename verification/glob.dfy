/**
 * Shell-style glob matching as `fnmatch.fnmatch` performs it on POSIX
 * (where `os.path.normcase` is the identity, so matching is
 * case-sensitive). A pattern is first cut into tokens the way
 * `fnmatch.translate` cuts it; the tokens must then match the WHOLE name.
 *
 *   `*`            any run of characters, `/` included, possibly empty
 *   `?`            exactly one character
 *   `[...]`        one character of the class; `[!...]` one character not in it
 *   `[` unclosed   the literal character `[`
 *   anything else  itself
 *
 * Inside a class a leading `]` (after the optional `!`) is literal,
 * `x-y` is the inclusive code-point range from x to y (empty when x > y),
 * and a `-` that cannot form a range is literal.
 */
module Glob {

  datatype ClassItem = Single(c: char) | Span(lo: char, hi: char)

  datatype Token =
    | Star
    | AnyChar
    | Lit(c: char)
    | Class(negated: bool, items: seq<ClassItem>)

  /** The characters that make a pattern a wildcard pattern. */
  predicate IsMeta(c: char)
  {
    c == '*' || c == '?' || c == '['
  }

  predicate HasNoMeta(p: string)
  {
    forall i :: 0 <= i < |p| ==> !IsMeta(p[i])
  }

  /** Position of the first `c` in `s` at or after `from`, or -1 if there is none. */
  function FindFrom(s: string, c: char, from: nat): (r: int)
    requires from <= |s|
    ensures r == -1 || (from <= r < |s| && s[r] == c)
    ensures r == -1 ==> forall k :: from <= k < |s| ==> s[k] != c
    ensures r != -1 ==> forall k :: from <= k < r ==> s[k] != c
    decreases |s| - from
  {
    if from == |s| then -1
    else if s[from] == c then from
    else FindFrom(s, c, from + 1)
  }

  /**
   * Position of the `]` that closes the class opened by `p[0] == '['`, or -1
   * when the bracket is unterminated. A `!` right after the bracket and a
   * `]` right after that are part of the class, not its end.
   */
  function ClosingBracket(p: string): (r: int)
    requires |p| > 0 && p[0] == '['
    ensures r == -1 || (2 <= r < |p| && p[r] == ']')
    ensures r != -1 && p[1] == '!' ==> 3 <= r
  {
    var j1 := if 1 < |p| && p[1] == '!' then 2 else 1;
    var j2 := if j1 < |p| && p[j1] == ']' then j1 + 1 else j1;
    FindFrom(p, ']', j2)
  }

  /** The members of a class body (the text between `[` or `[!` and `]`). */
  function ParseItems(b: string): (items: seq<ClassItem>)
    ensures |items| <= |b|
    decreases |b|
  {
    if |b| == 0 then []
    else if |b| >= 3 && b[1] == '-' then [Span(b[0], b[2])] + ParseItems(b[3..])
    else [Single(b[0])] + ParseItems(b[1..])
  }

  function Tokenize(p: string): (ts: seq<Token>)
    ensures |ts| <= |p|
    decreases |p|
  {
    if |p| == 0 then []
    else if p[0] == '*' then [Star] + Tokenize(p[1..])
    else if p[0] == '?' then [AnyChar] + Tokenize(p[1..])
    else if p[0] == '[' then
      var close := ClosingBracket(p);
      if close == -1 then [Lit('[')] + Tokenize(p[1..])
      else
        var body := p[1..close];
        var negated := body[0] == '!';
        [Class(negated, ParseItems(if negated then body[1..] else body))] + Tokenize(p[close + 1..])
    else [Lit(p[0])] + Tokenize(p[1..])
  }

  predicate Covers(item: ClassItem, c: char)
  {
    match item
    case Single(x) => c == x
    case Span(lo, hi) => lo <= c <= hi
  }

  predicate InClass(items: seq<ClassItem>, c: char)
  {
    exists k :: 0 <= k < |items| && Covers(items[k], c)
  }

  /** Whether a single-character token accepts `c`. */
  predicate Accepts(t: Token, c: char)
  {
    match t
    case Star => true
    case AnyChar => true
    case Lit(x) => c == x
    case Class(negated, items) => InClass(items, c) != negated
  }

  /** The tokens match all of `s`. */
  predicate MatchTokens(ts: seq<Token>, s: string)
    decreases |ts|, |s|
  {
    if |ts| == 0 then |s| == 0
    else if ts[0].Star? then MatchTokens(ts[1..], s) || (|s| > 0 && MatchTokens(ts, s[1..]))
    else |s| > 0 && Accepts(ts[0], s[0]) && MatchTokens(ts[1..], s[1..])
  }

  /** `fnmatch.fnmatch(name, pattern)` on POSIX. */
  predicate Fnmatch(name: string, pattern: string)
  {
    MatchTokens(Tokenize(pattern), name)
  }

  /** One literal token per character. */
  function Lits(p: string): (ts: seq<Token>)
    ensures |ts| == |p|
    ensures forall i :: 0 <= i < |p| ==> ts[i] == Lit(p[i])
  {
    if |p| == 0 then [] else [Lit(p[0])] + Lits(p[1..])
  }

  // ---------------------------------------------------------------------
  // Properties of the matcher
  // ---------------------------------------------------------------------

  /** A pattern without metacharacters tokenizes to its own characters, and tokenizing distributes over appending it. */
  lemma {:induction false} TokenizeLiteralPrefix(lit: string, rest: string)
    requires HasNoMeta(lit)
    ensures Tokenize(lit + rest) == Lits(lit) + Tokenize(rest)
    decreases |lit|
  {
    if |lit| > 0 {
      assert (lit + rest)[0] == lit[0];
      assert !IsMeta(lit[0]);
      assert (lit + rest)[1..] == lit[1..] + rest;
      TokenizeLiteralPrefix(lit[1..], rest);
    } else {
      assert lit + rest == rest;
    }
  }

  /** Literal tokens in front consume exactly that text. */
  lemma {:induction false} MatchLiteralPrefix(lit: string, ts: seq<Token>, s: string)
    ensures MatchTokens(Lits(lit) + ts, s)
            <==> |lit| <= |s| && s[..|lit|] == lit && MatchTokens(ts, s[|lit|..])
    decreases |lit|
  {
    if |lit| == 0 {
      assert Lits(lit) + ts == ts;
    } else {
      var all := Lits(lit) + ts;
      assert all[0] == Lit(lit[0]);
      assert all[1..] == Lits(lit[1..]) + ts;
      if |s| > 0 {
        MatchLiteralPrefix(lit[1..], ts, s[1..]);
        if |lit| <= |s| && s[..|lit|] == lit {
          assert s[1..][..|lit| - 1] == lit[1..];
        }
        if |lit| - 1 <= |s| - 1 && s[1..][..|lit| - 1] == lit[1..] && s[0] == lit[0] {
          assert s[..|lit|] == [s[0]] + s[1..][..|lit| - 1];
        }
        if |lit| <= |s| {
          assert s[|lit|..] == s[1..][|lit| - 1..];
        }
      }
    }
  }

  /** A leading star lets the rest of the pattern match any suffix of the name. */
  lemma {:induction false} StarSplits(ts: seq<Token>, s: string)
    ensures MatchTokens([Star] + ts, s) <==> exists k :: 0 <= k <= |s| && MatchTokens(ts, s[k..])
    decreases |s|
  {
    var all := [Star] + ts;
    assert all[1..] == ts;
    assert s[0..] == s;
    if |s| > 0 {
      StarSplits(ts, s[1..]);
      if exists k :: 0 <= k <= |s| && MatchTokens(ts, s[k..]) {
        var k :| 0 <= k <= |s| && MatchTokens(ts, s[k..]);
        if k > 0 {
          assert s[1..][k - 1..] == s[k..];
        }
      }
      if exists k :: 0 <= k <= |s[1..]| && MatchTokens(ts, s[1..][k..]) {
        var k :| 0 <= k <= |s[1..]| && MatchTokens(ts, s[1..][k..]);
        assert s[1..][k..] == s[k + 1..];
      }
    }
  }

  lemma LiteralTokens(lit: string)
    requires HasNoMeta(lit)
    ensures Tokenize(lit) == Lits(lit)
  {
    TokenizeLiteralPrefix(lit, "");
    assert lit + "" == lit;
    assert Lits(lit) + [] == Lits(lit);
  }

  lemma LiteralMatch(lit: string, s: string)
    ensures MatchTokens(Lits(lit), s) <==> s == lit
  {
    assert Lits(lit) + [] == Lits(lit);
    MatchLiteralPrefix(lit, [], s);
  }

  /** A pattern free of metacharacters matches exactly the name equal to it. */
  lemma LiteralPattern(name: string, pattern: string)
    requires HasNoMeta(pattern)
    ensures Fnmatch(name, pattern) <==> name == pattern
  {
    LiteralTokens(pattern);
    LiteralMatch(pattern, name);
  }

  /** `*` matches every name, including ones that contain `/`. */
  lemma StarMatchesEverything(name: string)
    ensures Fnmatch(name, "*")
  {
    assert Tokenize("*") == [Star] + Tokenize("");
    assert [Star] + [] == [Star];
    StarSplits([], name);
    assert name[|name|..] == [];
  }

  /** `*` followed by plain text matches exactly the names ending with that text, such as `*.log`. */
  lemma SuffixPattern(name: string, lit: string)
    requires HasNoMeta(lit)
    ensures Fnmatch(name, "*" + lit) <==> |lit| <= |name| && name[|name| - |lit|..] == lit
  {
    var p := "*" + lit;
    assert p[0] == '*' && p[1..] == lit;
    assert Tokenize(p) == [Star] + Tokenize(lit);
    LiteralTokens(lit);
    StarSplits(Lits(lit), name);
    if |lit| <= |name| && name[|name| - |lit|..] == lit {
      LiteralMatch(lit, name[|name| - |lit|..]);
    }
    if exists k :: 0 <= k <= |name| && MatchTokens(Lits(lit), name[k..]) {
      var k :| 0 <= k <= |name| && MatchTokens(Lits(lit), name[k..]);
      LiteralMatch(lit, name[k..]);
    }
  }

  /** Plain text followed by `*` matches exactly the names starting with that text, such as `build` followed by a star. */
  lemma PrefixPattern(name: string, lit: string)
    requires HasNoMeta(lit)
    ensures Fnmatch(name, lit + "*") <==> |lit| <= |name| && name[..|lit|] == lit
  {
    TokenizeLiteralPrefix(lit, "*");
    assert Tokenize("*") == [Star] + Tokenize("");
    assert [Star] + [] == [Star];
    MatchLiteralPrefix(lit, [Star], name);
    if |lit| <= |name| {
      StarSplits([], name[|lit|..]);
      assert name[|lit|..][|name[|lit|..]|..] == [];
    }
  }

  /** A run of `n` question marks matches exactly the names of length `n`. */
  lemma {:induction false} QuestionMarks(name: string, n: nat)
    ensures Fnmatch(name, seq(n, _ => '?')) <==> |name| == n
    decreases n
  {
    var p: string := seq(n, _ => '?');
    if n > 0 {
      var q: string := seq(n - 1, _ => '?');
      assert p[0] == '?' && p[1..] == q;
      assert Tokenize(p) == [AnyChar] + Tokenize(q);
      if |name| > 0 {
        QuestionMarks(name[1..], n - 1);
      }
    } else {
      assert p == [];
    }
  }

  /** A `[` that is never closed is an ordinary character, so a pattern without `*`, `?` or `]` matches only itself. */
  lemma {:induction false} UnclosedBracketIsLiteral(name: string, pattern: string)
    requires forall i :: 0 <= i < |pattern| ==> pattern[i] != '*' && pattern[i] != '?' && pattern[i] != ']'
    ensures Fnmatch(name, pattern) <==> name == pattern
  {
    UnclosedTokens(pattern);
    LiteralMatch(pattern, name);
  }

  lemma {:induction false} UnclosedTokens(p: string)
    requires forall i :: 0 <= i < |p| ==> p[i] != '*' && p[i] != '?' && p[i] != ']'
    ensures Tokenize(p) == Lits(p)
    decreases |p|
  {
    if |p| > 0 {
      if p[0] == '[' {
        assert ClosingBracket(p) == -1;
      }
      UnclosedTokens(p[1..]);
    }
  }

  lemma SingletonClass(item: ClassItem, c: char)
    ensures InClass([item], c) <==> Covers(item, c)
  {
    if Covers(item, c) {
      assert Covers([item][0], c);
    }
  }

  /** A class body without `-` is a plain set: it covers exactly its own characters. */
  lemma {:induction false} PlainClassItems(b: string, c: char)
    requires forall i :: 0 <= i < |b| ==> b[i] != '-'
    ensures InClass(ParseItems(b), c) <==> c in b
    decreases |b|
  {
    if |b| > 0 {
      var items := ParseItems(b);
      assert items == [Single(b[0])] + ParseItems(b[1..]);
      assert items[1..] == ParseItems(b[1..]);
      assert b == [b[0]] + b[1..];
      PlainClassItems(b[1..], c);
      if InClass(items, c) {
        var k :| 0 <= k < |items| && Covers(items[k], c);
        if k > 0 {
          assert Covers(items[1..][k - 1], c);
        }
      }
      if c in b {
        if c == b[0] {
          assert Covers(items[0], c);
        } else {
          var k :| 0 <= k < |items[1..]| && Covers(items[1..][k], c);
          assert Covers(items[k + 1], c);
        }
      }
    }
  }

  /**
   * A pattern that is one bracket class whose body holds no `-` and no `]`
   * matches a single character exactly when the character is in the body,
   * or, for `[!...]`, exactly when it is not.
   */
  lemma ClassPattern(c: char, p: string)
    requires |p| >= 3 && p[0] == '[' && p[|p| - 1] == ']'
    requires forall k :: 1 <= k < |p| - 1 ==> p[k] != ']' && p[k] != '-'
    requires p[1] == '!' ==> |p| >= 4
    ensures Fnmatch([c], p) <==> (c in ClassBody(p)) != (p[1] == '!')
  {
    var negated := p[1] == '!';
    var body := ClassBody(p);
    ClassToken(p);
    PlainClassItems(body, c);
    var ts := [Class(negated, ParseItems(body))];
    assert ts[1..] == [];
    assert [c][1..] == [];
    assert MatchTokens(ts, [c]) <==> Accepts(ts[0], c);
  }

  /** The characters between `[` (or `[!`) and the final `]`. */
  function ClassBody(p: string): string
    requires |p| >= 3
  {
    if p[1] == '!' then p[2..|p| - 1] else p[1..|p| - 1]
  }

  /** Such a pattern is a single class token. */
  lemma ClassToken(p: string)
    requires |p| >= 3 && p[0] == '[' && p[|p| - 1] == ']'
    requires forall k :: 1 <= k < |p| - 1 ==> p[k] != ']' && p[k] != '-'
    requires p[1] == '!' ==> |p| >= 4
    ensures Tokenize(p) == [Class(p[1] == '!', ParseItems(ClassBody(p)))]
    ensures forall k :: 0 <= k < |ClassBody(p)| ==> ClassBody(p)[k] != '-'
  {
    var close := ClosingBracket(p);
    assert close == |p| - 1;
    var inner := p[1..close];
    assert inner[0] == p[1];
    assert (if inner[0] == '!' then inner[1..] else inner) == ClassBody(p);
    assert p[close + 1..] == [];
    assert Tokenize(p) == [Class(p[1] == '!', ParseItems(ClassBody(p)))] + Tokenize([]);
  }

  /** `[0-9]` matches exactly one decimal digit. */
  lemma DigitClass(c: char)
    ensures Fnmatch([c], "[0-9]") <==> '0' <= c <= '9'
  {
    var p := "[0-9]";
    assert ClosingBracket(p) == 4;
    assert p[1..4] == "0-9";
    var items := [Span('0', '9')];
    assert "0-9"[3..] == "";
    assert ParseItems("0-9") == items;
    assert p[0] == '[' && p[5..] == "";
    assert Tokenize(p) == [Class(false, items)] + Tokenize("");
    var ts := [Class(false, items)];
    assert ts[1..] == [];
    assert [c][1..] == [];
    assert MatchTokens(ts, [c]) <==> Accepts(ts[0], c);
    SingletonClass(items[0], c);
  }

  /** `[!x]` matches exactly one character other than `x`, for every `x`. */
  lemma NegatedClass(c: char, x: char)
    ensures Fnmatch([c], "[!" + [x] + "]") <==> c != x
  {
    var p := "[!" + [x] + "]";
    assert p[1] == '!' && p[2] == x && p[3] == ']';
    assert ClosingBracket(p) == 3;
    assert p[1..3] == ['!', x];
    var items := [Single(x)];
    assert [x][1..] == [];
    assert ParseItems([x]) == items;
    assert p[1..3][1..] == [x];
    assert p[0] == '[' && p[4..] == "";
    assert Tokenize(p) == [Class(true, items)] + Tokenize("");
    var ts := [Class(true, items)];
    assert ts[1..] == [];
    assert [c][1..] == [];
    assert MatchTokens(ts, [c]) <==> Accepts(ts[0], c);
    SingletonClass(items[0], c);
  }
}
