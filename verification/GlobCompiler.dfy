/**
 isCovered of audit-mutation-scope.ts: a glob becomes a regular expression by five
 rewrites of its text, one after the other, and the expression is tested on a path.
 The rewrites are compared with a tokenizer that reads the glob once, the
 expression is parsed, and its meaning is compared with matching the glob directly.
 */
module GlobCompiler {
  import opened Wrappers

  // ----- the rewrites

  const MARK: char := '\U{00A7}'
  const NAME := "DOUBLE"
  const PLACEHOLDER: string := [MARK, MARK] + NAME + [MARK, MARK]

  predicate IsSpecial(c: char) {
    c in ".+^${}()|[]\\"
  }

  lemma SpecialCharacters(c: char)
    ensures IsSpecial(c) <==>
            || c == '.' || c == '+' || c == '^' || c == '$' || c == '{' || c == '}'
            || c == '(' || c == ')' || c == '|' || c == '[' || c == ']' || c == '\\'
  {
  }

  /** Puts a backslash before each special character. */
  function Escape(s: string): string {
    if s == "" then "" else (if IsSpecial(s[0]) then ['\\', s[0]] else [s[0]]) + Escape(s[1..])
  }

  /** A global replacement: leftmost occurrences first, none overlapping. */
  function ReplaceAll(s: string, pattern: string, replacement: string): string
    requires pattern != ""
    decreases |s|
  {
    if s == "" then ""
    else if pattern <= s then replacement + ReplaceAll(s[|pattern|..], pattern, replacement)
    else [s[0]] + ReplaceAll(s[1..], pattern, replacement)
  }

  /** The text after the first three rewrites. */
  function Marked(glob: string): string {
    ReplaceAll(ReplaceAll(Escape(glob), "**", PLACEHOLDER), "*", "[^/]*")
  }

  /** The last two rewrites. */
  function Unmark(s: string): string {
    ReplaceAll(ReplaceAll(s, PLACEHOLDER, ".*"), "?", ".")
  }

  function Compile(glob: string): string {
    Unmark(Marked(glob))
  }

  // ----- reading the glob once

  datatype Token = Deep | Shallow | One | Lit(c: char)

  function Tokenize(glob: string): seq<Token>
    decreases |glob|
  {
    if glob == "" then []
    else if "**" <= glob then [Deep] + Tokenize(glob[2..])
    else if glob[0] == '*' then [Shallow] + Tokenize(glob[1..])
    else if glob[0] == '?' then [One] + Tokenize(glob[1..])
    else [Lit(glob[0])] + Tokenize(glob[1..])
  }

  function Render(t: Token): string {
    match t
    case Deep => ".*"
    case Shallow => "[^/]*"
    case One => "."
    case Lit(c) => if IsSpecial(c) then ['\\', c] else [c]
  }

  function RenderAll(ts: seq<Token>): string {
    if ts == [] then "" else Render(ts[0]) + RenderAll(ts[1..])
  }

  // ----- how the rewrites act on the front of a text

  lemma ReplaceHit(s: string, pattern: string, replacement: string)
    requires pattern != ""
    ensures ReplaceAll(pattern + s, pattern, replacement) == replacement + ReplaceAll(s, pattern, replacement)
  {
    assert (pattern + s)[|pattern|..] == s;
  }

  lemma ReplaceMiss(c: char, s: string, pattern: string, replacement: string)
    requires pattern != "" && !(pattern <= [c] + s)
    ensures ReplaceAll([c] + s, pattern, replacement) == [c] + ReplaceAll(s, pattern, replacement)
  {
    assert ([c] + s)[1..] == s;
  }

  /** A prefix without the first character of the pattern passes through. */
  lemma {:induction false} ReplaceSkips(a: string, s: string, pattern: string, replacement: string)
    requires pattern != "" && pattern[0] !in a
    ensures ReplaceAll(a + s, pattern, replacement) == a + ReplaceAll(s, pattern, replacement)
  {
    if a == "" {
      assert a + s == s;
    } else {
      assert a + s == [a[0]] + (a[1..] + s);
      assert !(pattern <= a + s) by {
        assert pattern[0] != (a + s)[0];
      }
      ReplaceMiss(a[0], a[1..] + s, pattern, replacement);
      ReplaceSkips(a[1..], s, pattern, replacement);
    }
  }

  lemma EscapeFront(s: string)
    ensures "**" <= s <==> "**" <= Escape(s)
    ensures s != "" && s[0] == '*' <==> Escape(s) != "" && Escape(s)[0] == '*'
  {
    var e := Escape(s);
    if s != "" {
      assert e[0] == '*' <==> s[0] == '*';
      if s[0] == '*' {
        assert e == ['*'] + Escape(s[1..]);
        assert |s| > 1 ==> (Escape(s[1..])[0] == '*' <==> s[1] == '*');
        assert |e| > 1 ==> e[1] == Escape(s[1..])[0];
        assert |s| > 1 <==> |e| > 1;
      }
    }
    assert "**" <= s <==> |s| > 1 && s[0] == '*' && s[1] == '*';
    assert "**" <= e <==> |e| > 1 && e[0] == '*' && e[1] == '*';
  }

  lemma MarkedDeep(s: string)
    requires "**" <= s
    ensures Marked(s) == PLACEHOLDER + Marked(s[2..])
  {
    assert Escape(s) == "**" + Escape(s[2..]) by {
      assert s[1..][1..] == s[2..];
    }
    ReplaceHit(Escape(s[2..]), "**", PLACEHOLDER);
    ReplaceSkips(PLACEHOLDER, ReplaceAll(Escape(s[2..]), "**", PLACEHOLDER), "*", "[^/]*");
  }

  lemma MarkedShallow(s: string)
    requires s != "" && s[0] == '*' && !("**" <= s)
    ensures Marked(s) == "[^/]*" + Marked(s[1..])
  {
    EscapeFront(s);
    assert Escape(s) == "*" + Escape(s[1..]);
    ReplaceMiss('*', Escape(s[1..]), "**", PLACEHOLDER);
    ReplaceHit(ReplaceAll(Escape(s[1..]), "**", PLACEHOLDER), "*", "[^/]*");
  }

  lemma MarkedOther(s: string)
    requires s != "" && s[0] != '*'
    ensures Marked(s) == (if IsSpecial(s[0]) then ['\\', s[0]] else [s[0]]) + Marked(s[1..])
  {
    var front := if IsSpecial(s[0]) then ['\\', s[0]] else [s[0]];
    ReplaceSkips(front, Escape(s[1..]), "**", PLACEHOLDER);
    ReplaceSkips(front, ReplaceAll(Escape(s[1..]), "**", PLACEHOLDER), "*", "[^/]*");
  }

  lemma UnmarkHit(s: string)
    ensures Unmark(PLACEHOLDER + s) == ".*" + Unmark(s)
  {
    ReplaceHit(s, PLACEHOLDER, ".*");
    ReplaceSkips(".*", ReplaceAll(s, PLACEHOLDER, ".*"), "?", ".");
  }

  lemma UnmarkSkips(a: string, s: string)
    requires MARK !in a && '?' !in a
    ensures Unmark(a + s) == a + Unmark(s)
  {
    ReplaceSkips(a, s, PLACEHOLDER, ".*");
    ReplaceSkips(a, ReplaceAll(s, PLACEHOLDER, ".*"), "?", ".");
  }

  lemma UnmarkOne(s: string)
    ensures Unmark("?" + s) == "." + Unmark(s)
  {
    ReplaceSkips("?", s, PLACEHOLDER, ".*");
    ReplaceHit(ReplaceAll(s, PLACEHOLDER, ".*"), "?", ".");
  }

  lemma UnmarkLoneMark(s: string)
    requires !(PLACEHOLDER <= [MARK] + s)
    ensures Unmark([MARK] + s) == [MARK] + Unmark(s)
  {
    ReplaceMiss(MARK, s, PLACEHOLDER, ".*");
    ReplaceSkips([MARK], ReplaceAll(s, PLACEHOLDER, ".*"), "?", ".");
  }

  // ----- when the placeholder is confused with the glob's own text

  predicate Completes(rest: string) {
    [MARK, MARK] <= rest || "**" <= rest || [MARK] + "**" <= rest
  }

  /**
   The text starts with the placeholder's beginning and goes on with the rest of it,
   or with a `**` that will be turned into the placeholder and completes it.
   */
  predicate Confusable(s: string) {
    |s| >= 8 && s[0] == MARK && s[1] == MARK && NAME <= s[2..] && Completes(s[8..])
  }

  predicate HasConfusion(glob: string) {
    exists i :: 0 <= i < |glob| && Confusable(glob[i..])
  }

  lemma PrefixCons(c: char, w: string, s: string)
    ensures [c] + w <= s <==> s != "" && s[0] == c && w <= s[1..]
  {
    if s != "" && s[0] == c && w <= s[1..] {
      assert s == [c] + s[1..];
    }
    if [c] + w <= s {
      assert ([c] + w)[0] == s[0];
      assert w == ([c] + w)[1..] == s[1..|w| + 1] == s[1..][..|w|];
    }
  }

  predicate Plain(c: char) {
    c != '*' && c != MARK && !IsSpecial(c)
  }

  /** After an ordinary character the marked text goes on as the glob does. */
  lemma MarkedStartsPlain(s: string, c: char, w: string)
    requires Plain(c)
    ensures [c] + w <= Marked(s) <==> s != "" && s[0] == c && w <= Marked(s[1..])
  {
    PrefixCons(c, w, Marked(s));
    if s == "" {
      assert Marked(s) == "";
    } else if "**" <= s {
      MarkedDeep(s);
      assert Marked(s)[0] == MARK;
    } else if s[0] == '*' {
      MarkedShallow(s);
      assert Marked(s)[0] == '[';
    } else {
      MarkedOther(s);
    }
  }

  /** The marked text starts with MARK for a MARK or for a `**`. */
  lemma MarkedStartsMark(s: string, w: string)
    ensures [MARK] + w <= Marked(s) <==>
            || (s != "" && s[0] == MARK && w <= Marked(s[1..]))
            || ("**" <= s && [MARK] + w <= PLACEHOLDER + Marked(s[2..]))
  {
    PrefixCons(MARK, w, Marked(s));
    if s == "" {
      assert Marked(s) == "";
    } else if "**" <= s {
      MarkedDeep(s);
    } else if s[0] == '*' {
      MarkedShallow(s);
      assert Marked(s)[0] == '[';
    } else {
      MarkedOther(s);
    }
  }

  /** The end of the placeholder: two marks, from marks or from a `**`. */
  lemma MarkedStartsMarks(s: string)
    ensures [MARK, MARK] <= Marked(s) <==> Completes(s)
  {
    assert [MARK, MARK] == [MARK] + [MARK];
    MarkedStartsMark(s, [MARK]);
    PrefixCons(MARK, [MARK], s);
    PrefixCons(MARK, "**", s);
    if "**" <= s {
      assert [MARK] + [MARK] <= PLACEHOLDER + Marked(s[2..]);
    } else if s != "" && s[0] == MARK {
      assert [MARK] == [MARK] + "";
      MarkedStartsMark(s[1..], "");
      if "**" <= s[1..] {
        assert [MARK] + "" <= PLACEHOLDER + Marked(s[1..][2..]);
      }
    }
  }

  /** A plain word passes through the first three rewrites. */
  lemma {:induction false} MarkedStartsWord(s: string, word: string, w: string)
    requires forall i :: 0 <= i < |word| ==> Plain(word[i])
    ensures word + w <= Marked(s) <==> word <= s && w <= Marked(s[|word|..])
    decreases |word|
  {
    if word == "" {
      assert word + w == w && s[0..] == s;
    } else {
      var rest := word[1..];
      assert word + w == [word[0]] + (rest + w) && word == [word[0]] + rest;
      MarkedStartsPlain(s, word[0], rest + w);
      PrefixCons(word[0], rest, s);
      if s != "" && s[0] == word[0] {
        MarkedStartsWord(s[1..], rest, w);
        if rest <= s[1..] {
          assert s[1..][|rest|..] == s[|word|..];
        }
      }
    }
  }

  /** After its first two marks the placeholder can only come from its own name. */
  lemma FalseTailIff(s: string)
    ensures NAME + [MARK, MARK] <= Marked(s) <==> NAME <= s && Completes(s[6..])
  {
    MarkedStartsWord(s, NAME, [MARK, MARK]);
    if NAME <= s {
      MarkedStartsMarks(s[6..]);
    }
  }

  lemma SecondMark(s: string)
    ensures [MARK] + (NAME + [MARK, MARK]) <= Marked(s) <==>
            s != "" && s[0] == MARK && NAME + [MARK, MARK] <= Marked(s[1..])
  {
    var tail := NAME + [MARK, MARK];
    MarkedStartsMark(s, tail);
    if "**" <= s {
      assert ([MARK] + tail)[1] == 'D' && (PLACEHOLDER + Marked(s[2..]))[1] == MARK;
    }
  }

  /** At a mark of the glob, the rewritten text shows a placeholder exactly when the glob is confusable there. */
  lemma FalsePlaceholderIff(s: string)
    requires s != "" && s[0] == MARK
    ensures PLACEHOLDER <= Marked(s) <==> Confusable(s)
  {
    var tail := NAME + [MARK, MARK];
    assert PLACEHOLDER == [MARK] + ([MARK] + tail);
    MarkedStartsMark(s, [MARK] + tail);
    SecondMark(s[1..]);
    if |s| > 1 {
      assert s[1..][1..] == s[2..];
      FalseTailIff(s[2..]);
      if |s| >= 8 {
        assert s[2..][6..] == s[8..];
      }
    }
  }

  // ----- the rewrites against one reading

  lemma CompileFront(glob: string)
    requires glob != "" && !Confusable(glob)
    ensures Compile(glob) == Render(Tokenize(glob)[0]) + Compile(if "**" <= glob then glob[2..] else glob[1..])
  {
    if "**" <= glob {
      MarkedDeep(glob);
      UnmarkHit(Marked(glob[2..]));
    } else if glob[0] == '*' {
      MarkedShallow(glob);
      UnmarkSkips("[^/]*", Marked(glob[1..]));
    } else {
      MarkedOther(glob);
      if glob[0] == '?' {
        UnmarkOne(Marked(glob[1..]));
      } else if glob[0] == MARK {
        FalsePlaceholderIff(glob);
        UnmarkLoneMark(Marked(glob[1..]));
      } else {
        UnmarkSkips(if IsSpecial(glob[0]) then ['\\', glob[0]] else [glob[0]], Marked(glob[1..]));
      }
    }
  }

  lemma ConfusionMoves(glob: string, n: nat)
    requires n <= |glob| && forall i :: 0 <= i < n ==> !Confusable(glob[i..])
    ensures HasConfusion(glob) <==> HasConfusion(glob[n..])
  {
    if i :| 0 <= i < |glob| && Confusable(glob[i..]) {
      assert glob[n..][i - n..] == glob[i..];
    }
    if i :| 0 <= i < |glob[n..]| && Confusable(glob[n..][i..]) {
      assert glob[n..][i..] == glob[n + i..];
    }
  }

  lemma SameTail(front: string, a: string, b: string)
    ensures front + a == front + b <==> a == b
  {
    assert (front + a)[|front|..] == a && (front + b)[|front|..] == b;
  }

  /**
   The five rewrites give what one reading of the glob gives exactly when nowhere in
   the glob the placeholder's own text, or its beginning completed by a `**`, occurs.
   */
  lemma {:induction false} RewritesAgreeIff(glob: string)
    ensures Compile(glob) == RenderAll(Tokenize(glob)) <==> !HasConfusion(glob)
    decreases |glob|
  {
    if glob == "" {
      assert Marked(glob) == "";
    } else {
      assert glob[0..] == glob;
      if Confusable(glob) {
        FalsePlaceholderIff(glob);
        var rest := Marked(glob)[|PLACEHOLDER|..];
        assert Marked(glob) == PLACEHOLDER + rest;
        UnmarkHit(rest);
        assert Compile(glob)[0] == '.';
        assert RenderAll(Tokenize(glob))[0] == MARK;
      } else {
        CompileFront(glob);
        var n := if "**" <= glob then 2 else 1;
        assert n == 2 ==> !Confusable(glob[1..]) by {
          assert n == 2 ==> glob[1..][0] == '*';
        }
        ConfusionMoves(glob, n);
        RewritesAgreeIff(glob[n..]);
        var ts := Tokenize(glob);
        assert ts[1..] == Tokenize(glob[n..]);
        SameTail(Render(ts[0]), Compile(glob[n..]), RenderAll(ts[1..]));
      }
    }
  }

  lemma MarkFreeIsUnconfused(glob: string)
    requires MARK !in glob
    ensures !HasConfusion(glob)
  {
    forall i | 0 <= i < |glob| ensures !Confusable(glob[i..]) {
      assert glob[i] in glob && glob[i..][0] == glob[i];
    }
  }

  lemma {:induction false} MarkedLength(s: string)
    requires forall i :: 0 <= i < |s| ==> s[i] != '*' && !IsSpecial(s[i])
    ensures Marked(s) == s
  {
    if s == "" {
      assert Marked(s) == "";
    } else {
      MarkedOther(s);
      MarkedLength(s[1..]);
    }
  }

  /** A glob that spells out the placeholder is compiled as if it said `**`. */
  lemma PlaceholderIsTakenForDeep()
    ensures Compile(PLACEHOLDER) == ".*" && RenderAll(Tokenize(PLACEHOLDER)) != ".*"
  {
    assert PLACEHOLDER[8..] == [MARK, MARK];
    FalsePlaceholderIff(PLACEHOLDER);
    assert Confusable(PLACEHOLDER[0..]);
    RewritesAgreeIff(PLACEHOLDER);
    assert |Marked(PLACEHOLDER)| == 10 by { MarkedLength(PLACEHOLDER); }
    assert Marked(PLACEHOLDER) == PLACEHOLDER + "";
    UnmarkHit("");
  }

  // ----- the expression

  /** What the generated expressions are made of. */
  datatype Atom = Char(c: char) | Dot | DotStar | NoSlashStar

  function Cons(a: Atom, rest: Option<seq<Atom>>): Option<seq<Atom>> {
    if rest.None? then None else Some([a] + rest.value)
  }

  /** Reads an expression of this kind; none when the text is anything else. */
  function Parse(text: string): Option<seq<Atom>>
    decreases |text|
  {
    if text == "" then Some([])
    else if text[0] == '\\' then
      if |text| > 1 && IsSpecial(text[1]) then Cons(Char(text[1]), Parse(text[2..])) else None
    else if "[^/]*" <= text then Cons(NoSlashStar, Parse(text[5..]))
    else if ".*" <= text then Cons(DotStar, Parse(text[2..]))
    else if text[0] == '.' then Cons(Dot, Parse(text[1..]))
    else if IsSpecial(text[0]) || text[0] == '*' || text[0] == '?' then None
    else Cons(Char(text[0]), Parse(text[1..]))
  }

  function AtomOf(t: Token): Atom {
    match t
    case Deep => DotStar
    case Shallow => NoSlashStar
    case One => Dot
    case Lit(c) => Char(c)
  }

  function Atoms(ts: seq<Token>): seq<Atom> {
    seq(|ts|, i requires 0 <= i < |ts| => AtomOf(ts[i]))
  }

  /** The characters `.` does not match. */
  predicate IsLineTerminator(c: char) {
    c == '\n' || c == '\r' || c == '\U{2028}' || c == '\U{2029}'
  }

  /** The whole of `path` is matched. A star may take any number of characters it accepts. */
  predicate Matches(atoms: seq<Atom>, path: string)
    decreases |atoms|
  {
    if atoms == [] then path == ""
    else
      match atoms[0]
      case Char(c) => path != "" && path[0] == c && Matches(atoms[1..], path[1..])
      case Dot => path != "" && !IsLineTerminator(path[0]) && Matches(atoms[1..], path[1..])
      case DotStar =>
        exists k :: 0 <= k <= |path| && (forall i :: 0 <= i < k ==> !IsLineTerminator(path[i]))
          && Matches(atoms[1..], path[k..])
      case NoSlashStar =>
        exists k :: 0 <= k <= |path| && (forall i :: 0 <= i < k ==> path[i] != '/') && Matches(atoms[1..], path[k..])
  }

  /** `new RegExp("^" + pattern + "$").test(path)`. */
  predicate Test(pattern: string, path: string) {
    Parse(pattern).Some? && Matches(Parse(pattern).value, path)
  }

  predicate TokenOk(t: Token) {
    t.Lit? ==> t.c != '*' && t.c != '?'
  }

  lemma {:induction false} TokensOk(glob: string)
    ensures forall i :: 0 <= i < |Tokenize(glob)| ==> TokenOk(Tokenize(glob)[i])
    decreases |glob|
  {
    if glob != "" {
      TokensOk(if "**" <= glob then glob[2..] else glob[1..]);
    }
  }

  lemma StartsAfterDot(ts: seq<Token>)
    requires forall i :: 0 <= i < |ts| ==> TokenOk(ts[i])
    ensures RenderAll(ts) != "" ==> RenderAll(ts)[0] != '*'
  {
  }

  lemma ParseFront(t: Token, rest: string)
    requires TokenOk(t) && (rest != "" ==> rest[0] != '*')
    ensures Parse(Render(t) + rest) == Cons(AtomOf(t), Parse(rest))
  {
    var text := Render(t) + rest;
    match t
    case Deep => assert text[2..] == rest;
    case Shallow => assert text[5..] == rest;
    case One =>
      assert text[1..] == rest;
      assert text[0] != '[' && (|text| > 1 ==> text[1] == rest[0]);
    case Lit(c) =>
      if IsSpecial(c) {
        assert text[2..] == rest;
      } else {
        assert text[1..] == rest && text[0] != '[' && text[0] != '.';
      }
  }

  /** The generated text is read back as the atoms that were meant. */
  lemma {:induction false} ParseRender(ts: seq<Token>)
    requires forall i :: 0 <= i < |ts| ==> TokenOk(ts[i])
    ensures Parse(RenderAll(ts)) == Some(Atoms(ts))
  {
    if ts != [] {
      var rest := RenderAll(ts[1..]);
      ParseRender(ts[1..]);
      StartsAfterDot(ts[1..]);
      ParseFront(ts[0], rest);
      assert Atoms(ts) == [AtomOf(ts[0])] + Atoms(ts[1..]);
    }
  }

  lemma AtomsCons(t: Token, ts: seq<Token>)
    ensures Atoms([t] + ts) == [AtomOf(t)] + Atoms(ts)
  {
  }

  /** The reader takes no other text: what it reads is the rendering of tokens without a bare star or question mark. */
  lemma {:induction false} ReadIsRendered(text: string) returns (ts: seq<Token>)
    requires Parse(text).Some?
    ensures text == RenderAll(ts) && Parse(text).value == Atoms(ts)
    ensures forall i :: 0 <= i < |ts| ==> ts[i].Lit? ==> ts[i].c != '*' && ts[i].c != '?'
    decreases |text|
  {
    if text == "" {
      return [];
    }
    var front :=
      if text[0] == '\\' then Lit(text[1])
      else if "[^/]*" <= text then Shallow
      else if ".*" <= text then Deep
      else if text[0] == '.' then One
      else Lit(text[0]);
    var rest := text[|Render(front)|..];
    assert text == Render(front) + rest;
    var after := ReadIsRendered(rest);
    ts := [front] + after;
    AtomsCons(front, after);
  }

  // ----- matching the glob directly

  predicate GlobMatches(glob: string, path: string)
    decreases |glob|, |path|
  {
    if glob == "" then path == ""
    else if "**" <= glob then GlobMatches(glob[2..], path) || (path != "" && GlobMatches(glob, path[1..]))
    else if glob[0] == '*' then
      GlobMatches(glob[1..], path) || (path != "" && path[0] != '/' && GlobMatches(glob, path[1..]))
    else if glob[0] == '?' then path != "" && GlobMatches(glob[1..], path[1..])
    else path != "" && path[0] == glob[0] && GlobMatches(glob[1..], path[1..])
  }

  predicate OneLine(path: string) {
    forall i :: 0 <= i < |path| ==> !IsLineTerminator(path[i])
  }

  lemma DotStarUnfolds(rest: seq<Atom>, path: string)
    ensures Matches([DotStar] + rest, path) <==>
            Matches(rest, path) || (path != "" && !IsLineTerminator(path[0]) && Matches([DotStar] + rest, path[1..]))
  {
    var atoms := [DotStar] + rest;
    assert atoms[1..] == rest && path[0..] == path;
    if k :| 0 < k <= |path| && (forall i :: 0 <= i < k ==> !IsLineTerminator(path[i])) && Matches(rest, path[k..]) {
      assert path[1..][k - 1..] == path[k..];
      assert !IsLineTerminator(path[0]);
    }
    if path != "" && !IsLineTerminator(path[0]) && Matches(atoms, path[1..]) {
      var k :| 0 <= k <= |path[1..]| && (forall i :: 0 <= i < k ==> !IsLineTerminator(path[1..][i]))
        && Matches(rest, path[1..][k..]);
      assert path[1..][k..] == path[k + 1..];
      assert forall i :: 0 < i < k + 1 ==> path[i] == path[1..][i - 1];
    }
  }

  lemma NoSlashStarUnfolds(rest: seq<Atom>, path: string)
    ensures Matches([NoSlashStar] + rest, path) <==>
            Matches(rest, path) || (path != "" && path[0] != '/' && Matches([NoSlashStar] + rest, path[1..]))
  {
    var atoms := [NoSlashStar] + rest;
    assert atoms[1..] == rest && path[0..] == path;
    if k :| 0 < k <= |path| && (forall i :: 0 <= i < k ==> path[i] != '/') && Matches(rest, path[k..]) {
      assert path[1..][k - 1..] == path[k..];
      assert path[0] != '/';
    }
    if path != "" && path[0] != '/' && Matches(atoms, path[1..]) {
      var k :| 0 <= k <= |path[1..]| && (forall i :: 0 <= i < k ==> path[1..][i] != '/')
        && Matches(rest, path[1..][k..]);
      assert path[1..][k..] == path[k + 1..];
      assert forall i :: 0 < i < k + 1 ==> path[i] == path[1..][i - 1];
    }
  }

  /** On a path of one line the expression means what the glob means; on any other it matches no more. */
  lemma {:induction false} ExpressionMeansGlob(glob: string, path: string)
    ensures Matches(Atoms(Tokenize(glob)), path) ==> GlobMatches(glob, path)
    ensures OneLine(path) && GlobMatches(glob, path) ==> Matches(Atoms(Tokenize(glob)), path)
    decreases |glob|, |path|
  {
    if glob != "" {
      var n := if "**" <= glob then 2 else 1;
      var ts := Tokenize(glob);
      var rest := Atoms(Tokenize(glob[n..]));
      AtomsCons(ts[0], Tokenize(glob[n..]));
      assert Atoms(ts) == [AtomOf(ts[0])] + rest && Atoms(ts)[1..] == rest;
      if ts[0].Deep? || ts[0].Shallow? {
        ExpressionMeansGlob(glob[n..], path);
        if ts[0].Deep? { DotStarUnfolds(rest, path); } else { NoSlashStarUnfolds(rest, path); }
        if path != "" {
          ExpressionMeansGlob(glob, path[1..]);
        }
      } else if path != "" {
        ExpressionMeansGlob(glob[1..], path[1..]);
      }
    }
  }

  /** The compiled expression of an unconfused glob, tested on a path of one line, decides the glob. */
  lemma CompiledMeansGlob(glob: string, path: string)
    requires !HasConfusion(glob)
    ensures Test(Compile(glob), path) ==> GlobMatches(glob, path)
    ensures OneLine(path) ==> (Test(Compile(glob), path) <==> GlobMatches(glob, path))
  {
    RewritesAgreeIff(glob);
    TokensOk(glob);
    ParseRender(Tokenize(glob));
    ExpressionMeansGlob(glob, path);
  }

  lemma {:induction false} DeepMatchesAll(path: string)
    ensures GlobMatches("**", path)
  {
    assert "**"[2..] == "";
    if path != "" {
      DeepMatchesAll(path[1..]);
    }
  }

  /** Only paths of one line are decided rightly for every glob: `**` fails on all others. */
  lemma OneLineIff(path: string)
    ensures (forall i :: 0 <= i < |path| ==>
               path[i] != '\n' && path[i] != '\r' && path[i] != '\U{2028}' && path[i] != '\U{2029}') <==>
            forall glob :: !HasConfusion(glob) ==> (Test(Compile(glob), path) <==> GlobMatches(glob, path))
  {
    forall glob | !HasConfusion(glob)
      ensures OneLine(path) ==> (Test(Compile(glob), path) <==> GlobMatches(glob, path))
    {
      CompiledMeansGlob(glob, path);
    }
    if !OneLine(path) {
      var glob := "**";
      MarkFreeIsUnconfused(glob);
      DeepMatchesAll(path);
      RewritesAgreeIff(glob);
      TokensOk(glob);
      assert Tokenize(glob) == [Deep] by { assert glob[2..] == ""; }
      ParseRender(Tokenize(glob));
      assert Atoms([Deep])[1..] == [];
      assert !Test(Compile(glob), path);
    }
  }

  /** A question mark takes one character, a slash too, but no line terminator. */
  lemma QuestionMarkIff(path: string)
    ensures Test(Compile("?"), path) <==>
            |path| == 1 && path[0] != '\n' && path[0] != '\r' && path[0] != '\U{2028}' && path[0] != '\U{2029}'
  {
    var glob := "?";
    MarkFreeIsUnconfused(glob);
    RewritesAgreeIff(glob);
    TokensOk(glob);
    assert Tokenize(glob) == [One] by { assert glob[1..] == ""; }
    ParseRender(Tokenize(glob));
    assert Atoms([One])[1..] == [];
  }

  // ----- isCovered

  /**
   Whether any glob covers the path. For globs in which the placeholder is not
   confused and paths of one line this is exactly whether some glob matches.
   */
  method IsCovered(srcPath: string, mutateGlobs: seq<string>) returns (covered: bool)
    ensures covered <==> exists i :: 0 <= i < |mutateGlobs| && Test(Compile(mutateGlobs[i]), srcPath)
    ensures OneLine(srcPath) && (forall i :: 0 <= i < |mutateGlobs| ==> !HasConfusion(mutateGlobs[i])) ==>
              (covered <==> exists i :: 0 <= i < |mutateGlobs| && GlobMatches(mutateGlobs[i], srcPath))
  {
    forall i | 0 <= i < |mutateGlobs| && !HasConfusion(mutateGlobs[i])
      ensures OneLine(srcPath) ==> (Test(Compile(mutateGlobs[i]), srcPath) <==> GlobMatches(mutateGlobs[i], srcPath))
    {
      CompiledMeansGlob(mutateGlobs[i], srcPath);
    }
    var i := 0;
    while i < |mutateGlobs|
      invariant 0 <= i <= |mutateGlobs|
      invariant forall j :: 0 <= j < i ==> !Test(Compile(mutateGlobs[j]), srcPath)
    {
      var escaped := Escape(mutateGlobs[i]);
      var marked := ReplaceAll(ReplaceAll(escaped, "**", PLACEHOLDER), "*", "[^/]*");
      var pattern := ReplaceAll(ReplaceAll(marked, PLACEHOLDER, ".*"), "?", ".");
      if Test(pattern, srcPath) { return true; }
      i := i + 1;
    }
    return false;
  }
}
