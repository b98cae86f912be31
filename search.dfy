/**
 * `handleSearch`: the query is split on single spaces, each word becomes a
 * positive lookahead `(?=.*word)`, and the records whose serialisation the
 * case-insensitive pattern accepts are kept, in order.
 *
 * The pattern is modelled through a small fragment of the JavaScript regular
 * expression language: a sequence of lookahead groups whose bodies are
 * literal characters, escaped metacharacters and `.`. The serialisation
 * (`JSON.stringify`) is a parameter.
 */
module Search {
  import opened Text
  import opened Seqs
  import opened Records

  /** The characters with a syntactic meaning in a JavaScript regular expression. */
  const Metacharacters: set<char> :=
    {'\\', '^', '$', '.', '*', '+', '?', '(', ')', '[', ']', '{', '}', '|'}

  /** The group the loop adds for one word. */
  function Lookahead(word: string): string {
    "(?=.*" + word + ")"
  }

  /** The pattern for a list of words: their lookahead groups, in order. */
  function Lookaheads(words: seq<string>): string {
    if words == [] then "" else Lookahead(words[0]) + Lookaheads(words[1..])
  }

  lemma {:induction false} LookaheadsAppend(words: seq<string>, w: string)
    ensures Lookaheads(words + [w]) == Lookaheads(words) + Lookahead(w)
  {
    if words == [] {
      assert [w][1..] == [];
    } else {
      assert (words + [w])[1..] == words[1..] + [w];
      LookaheadsAppend(words[1..], w);
    }
  }

  /** The loop that builds `exp`: one lookahead group appended per word. */
  method BuildPattern(words: seq<string>) returns (exp: string)
    ensures exp == Lookaheads(words)
  {
    exp := "";
    for i := 0 to |words|
      invariant exp == Lookaheads(words[..i])
    {
      assert words[..i + 1] == words[..i] + [words[i]];
      LookaheadsAppend(words[..i], words[i]);
      exp := exp + "(?=.*" + words[i] + ")";
    }
    assert words[..|words|] == words;
  }

  /** A word with each metacharacter preceded by a backslash, so that it reads literally. */
  function Escape(word: string): (e: string)
    ensures |e| >= |word|
  {
    if word == [] then []
    else (if word[0] in Metacharacters then ['\\', word[0]] else [word[0]]) + Escape(word[1..])
  }

  function EscapeAll(words: seq<string>): (escaped: seq<string>)
    ensures |escaped| == |words|
  {
    seq(|words|, k requires 0 <= k < |words| => Escape(words[k]))
  }

  /** A word without metacharacters is its own escape. */
  lemma {:induction false} EscapeIdentity(word: string)
    requires forall k :: 0 <= k < |word| ==> word[k] !in Metacharacters
    ensures Escape(word) == word
  {
    if word != [] {
      EscapeIdentity(word[1..]);
      assert [word[0]] + word[1..] == word;
    }
  }

  /** One position of a lookahead body. */
  datatype Atom = Literal(c: char) | AnyChar

  /**
   * Parses a lookahead body up to and including its closing `)`: plain
   * characters, `\` before a metacharacter, and `.`. The rest after the `)`
   * comes back with the atoms; anything outside the fragment gives None.
   */
  function ParseBody(s: string): (r: Option<(seq<Atom>, string)>)
    ensures r.Some? ==> |r.value.1| < |s|
  {
    if s == [] then None
    else if s[0] == ')' then Some(([], s[1..]))
    else if s[0] == '\\' then
      if |s| >= 2 && s[1] in Metacharacters then
        match ParseBody(s[2..])
        case None => None
        case Some(parsed) => Some(([Literal(s[1])] + parsed.0, parsed.1))
      else None
    else if s[0] == '.' then
      match ParseBody(s[1..])
      case None => None
      case Some(parsed) => Some(([AnyChar] + parsed.0, parsed.1))
    else if s[0] in Metacharacters then None
    else
      match ParseBody(s[1..])
      case None => None
      case Some(parsed) => Some(([Literal(s[0])] + parsed.0, parsed.1))
  }

  /** A pattern made of lookahead groups, read back as the list of their bodies. */
  function Decode(exp: string): Option<seq<seq<Atom>>>
    decreases |exp|
  {
    if exp == [] then Some([])
    else if |exp| >= 5 && exp[..5] == "(?=.*" then
      match ParseBody(exp[5..])
      case None => None
      case Some(parsed) =>
        match Decode(parsed.1)
        case None => None
        case Some(bodies) => Some([parsed.0] + bodies)
    else None
  }

  /** A word read literally, one atom per character. */
  function Literals(w: string): (atoms: seq<Atom>)
    ensures |atoms| == |w| && forall k :: 0 <= k < |w| ==> atoms[k] == Literal(w[k])
  {
    if w == [] then [] else [Literal(w[0])] + Literals(w[1..])
  }

  function LiteralBodies(words: seq<string>): (bodies: seq<seq<Atom>>)
    ensures |bodies| == |words|
  {
    seq(|words|, k requires 0 <= k < |words| => Literals(words[k]))
  }

  /** An escaped word followed by `)` parses back to the word's characters, read literally. */
  lemma {:induction false} ParseBodyEscaped(w: string, rest: string)
    ensures ParseBody(Escape(w) + ")" + rest) == Some((Literals(w), rest))
  {
    var s := Escape(w) + ")" + rest;
    if w == [] {
      assert s == [')'] + rest;
    } else {
      ParseBodyEscaped(w[1..], rest);
      var tail := Escape(w[1..]) + ")" + rest;
      if w[0] in Metacharacters {
        assert s == ['\\', w[0]] + tail;
        assert s[2..] == tail;
      } else {
        assert s == [w[0]] + tail;
        assert s[1..] == tail;
      }
    }
  }

  /** The escaped pattern decodes to one literal body per word: escaping makes every word literal. */
  lemma {:induction false} DecodeEscapedPattern(words: seq<string>)
    ensures Decode(Lookaheads(EscapeAll(words))) == Some(LiteralBodies(words))
  {
    if words != [] {
      var escaped := EscapeAll(words);
      assert escaped[1..] == EscapeAll(words[1..]);
      DecodeEscapedPattern(words[1..]);
      var rest := Lookaheads(escaped[1..]);
      var exp := Lookaheads(escaped);
      assert exp == "(?=.*" + (Escape(words[0]) + ")" + rest);
      assert exp[..5] == "(?=.*";
      assert exp[5..] == Escape(words[0]) + ")" + rest;
      ParseBodyEscaped(words[0], rest);
      assert [Literals(words[0])] + LiteralBodies(words[1..]) == LiteralBodies(words);
    }
  }

  predicate IsLineTerminator(c: char) {
    c == '\n' || c == '\r' || c == '\U{2028}' || c == '\U{2029}'
  }

  /** No line terminator in `s[p..i]`: `.*` can stretch from `p` to `i`. */
  predicate NoLineTerminatorBetween(s: string, p: nat, i: nat)
    requires p <= i <= |s|
  {
    forall k :: p <= k < i ==> !IsLineTerminator(s[k])
  }

  /** One atom against one character; the `i` flag folds letter case, and `.` stops at line terminators. */
  predicate AtomMatches(a: Atom, c: char) {
    match a
    case Literal(x) => LowerChar(x) == LowerChar(c)
    case AnyChar => !IsLineTerminator(c)
  }

  predicate BodyMatchesAt(body: seq<Atom>, s: string, i: nat) {
    i + |body| <= |s| && forall k :: 0 <= k < |body| ==> AtomMatches(body[k], s[i + k])
  }

  /** `(?=.*BODY)` at position `p`: the body matches at some `i >= p` that `.*` reaches. */
  predicate LookaheadHolds(body: seq<Atom>, s: string, p: nat)
    requires p <= |s|
  {
    exists i: nat | p <= i <= |s| :: NoLineTerminatorBetween(s, p, i) && BodyMatchesAt(body, s, i)
  }

  /** Every lookahead group holds at position `p`. */
  predicate AllHoldAt(bodies: seq<seq<Atom>>, s: string, p: nat)
    requires p <= |s|
  {
    forall k :: 0 <= k < |bodies| ==> LookaheadHolds(bodies[k], s, p)
  }

  /** `test` on a pattern of lookahead groups: some start position satisfies every group. */
  predicate PatternMatches(bodies: seq<seq<Atom>>, s: string) {
    exists p: nat | p <= |s| :: AllHoldAt(bodies, s, p)
  }

  /** `new RegExp(exp, 'i').test(s)` for patterns in the fragment. */
  predicate RegexTest(exp: string, s: string)
    ensures RegexTest(exp, s) ==> Decode(exp).Some?
    ensures Decode(exp) == Some([]) ==> RegexTest(exp, s)
  {
    assert AllHoldAt([], s, 0);
    match Decode(exp)
    case None => false
    case Some(bodies) => PatternMatches(bodies, s)
  }

  function RegexTester(exp: string, serialise: Record -> string): Record -> bool {
    (r: Record) => RegexTest(exp, serialise(r))
  }

  predicate NoLineTerminator(s: string) {
    forall k :: 0 <= k < |s| ==> !IsLineTerminator(s[k])
  }

  /** A literal body matches exactly where the word occurs, letters compared without regard to case. */
  lemma LiteralsMatchAt(w: string, s: string, i: nat)
    ensures BodyMatchesAt(Literals(w), s, i) <==> MatchesAtCI(w, s, i)
  {
  }

  /**
   * On a text without line terminators, the escaped pattern accepts exactly
   * when every word occurs in the text, letters compared without regard to case.
   */
  lemma EscapedPatternMeaning(words: seq<string>, s: string)
    requires NoLineTerminator(s)
    ensures RegexTest(Lookaheads(EscapeAll(words)), s) <==> forall k :: 0 <= k < |words| ==> ContainsCI(s, words[k])
  {
    DecodeEscapedPattern(words);
    var bodies := LiteralBodies(words);
    if PatternMatches(bodies, s) {
      var p: nat :| p <= |s| && AllHoldAt(bodies, s, p);
      forall k | 0 <= k < |words|
        ensures ContainsCI(s, words[k])
      {
        assert LookaheadHolds(bodies[k], s, p);
        var i: nat :| p <= i <= |s| && NoLineTerminatorBetween(s, p, i) && BodyMatchesAt(bodies[k], s, i);
        LiteralsMatchAt(words[k], s, i);
      }
    }
    if forall k :: 0 <= k < |words| ==> ContainsCI(s, words[k]) {
      forall k | 0 <= k < |bodies|
        ensures LookaheadHolds(bodies[k], s, 0)
      {
        assert ContainsCI(s, words[k]);
        var i: nat :| i <= |s| && MatchesAtCI(words[k], s, i);
        LiteralsMatchAt(words[k], s, i);
        assert NoLineTerminatorBetween(s, 0, i);
      }
      assert AllHoldAt(bodies, s, 0);
    }
  }

  /** A record is kept when every query word occurs in its serialisation, letters compared without regard to case. */
  function MatchesAllWords(words: seq<string>, serialise: Record -> string): Record -> bool {
    (r: Record) => forall k :: 0 <= k < |words| ==> ContainsCI(serialise(r), words[k])
  }

  /** What the search means: the records holding every space-separated word of the query, in order. */
  function SearchResults(data: seq<Record>, query: string, serialise: Record -> string): seq<Record> {
    Filter(data, MatchesAllWords(Split(query, ' '), serialise))
  }

  /**
   * `handleSearch` as written: the words go into the pattern unescaped, so
   * a metacharacter in the query keeps its regular-expression meaning.
   */
  method HandleSearchAsWritten(data: seq<Record>, query: string, serialise: Record -> string)
    returns (results: seq<Record>)
    ensures results == Filter(data, RegexTester(Lookaheads(Split(query, ' ')), serialise))
    ensures IsSubsequence(results, data)
    ensures (forall j :: 0 <= j < |query| ==> query[j] !in Metacharacters)
      && (forall k :: 0 <= k < |data| ==> NoLineTerminator(serialise(data[k])))
      ==> results == SearchResults(data, query, serialise)
    ensures query == "" ==> results == data
  {
    if query == "" {
      AsWrittenEmptyQuery(data, serialise);
    }
    if (forall j :: 0 <= j < |query| ==> query[j] !in Metacharacters)
      && (forall k :: 0 <= k < |data| ==> NoLineTerminator(serialise(data[k])))
    {
      AsWrittenPlainQuery(data, query, serialise);
    }
    var words := Split(query, ' ');
    var exp := BuildPattern(words);
    results := Filter(data, RegexTester(exp, serialise));
    FilterIsSubsequence(data, RegexTester(exp, serialise));
  }

  /**
   * `handleSearch` with each word escaped before it enters the pattern. The
   * result keeps input order, and when no serialisation holds a line
   * terminator (`JSON.stringify` escapes `\n` and `\r`) it is exactly the
   * records holding every query word.
   */
  method HandleSearch(data: seq<Record>, query: string, serialise: Record -> string)
    returns (results: seq<Record>)
    ensures IsSubsequence(results, data)
    ensures (forall k :: 0 <= k < |data| ==> NoLineTerminator(serialise(data[k])))
      ==> results == SearchResults(data, query, serialise)
  {
    var words := Split(query, ' ');
    var exp := BuildPattern(EscapeAll(words));
    results := Filter(data, RegexTester(exp, serialise));
    FilterIsSubsequence(data, RegexTester(exp, serialise));
    if forall k :: 0 <= k < |data| ==> NoLineTerminator(serialise(data[k])) {
      forall r | r in data
        ensures RegexTester(exp, serialise)(r) == MatchesAllWords(words, serialise)(r)
      {
        EscapedPatternMeaning(words, serialise(r));
      }
      FilterSameTest(data, RegexTester(exp, serialise), MatchesAllWords(words, serialise));
    }
  }

  /** When no query word holds a metacharacter, escaping changes nothing and both searches agree. */
  lemma {:induction false} PlainWordsNeedNoEscape(words: seq<string>)
    requires forall k, j :: 0 <= k < |words| && 0 <= j < |words[k]| ==> words[k][j] !in Metacharacters
    ensures Lookaheads(EscapeAll(words)) == Lookaheads(words)
  {
    forall k | 0 <= k < |words|
      ensures EscapeAll(words)[k] == words[k]
    {
      EscapeIdentity(words[k]);
    }
    assert EscapeAll(words) == words;
  }

  /**
   * The search as written means what it is meant to when the query holds no
   * metacharacter and no serialisation holds a line terminator: a record is
   * kept exactly when every space-separated word occurs in its
   * serialisation, letters compared without regard to case.
   */
  lemma AsWrittenPlainQuery(data: seq<Record>, query: string, serialise: Record -> string)
    requires forall j :: 0 <= j < |query| ==> query[j] !in Metacharacters
    requires forall k :: 0 <= k < |data| ==> NoLineTerminator(serialise(data[k]))
    ensures Filter(data, RegexTester(Lookaheads(Split(query, ' ')), serialise)) == SearchResults(data, query, serialise)
  {
    var words := Split(query, ' ');
    forall k, j | 0 <= k < |words| && 0 <= j < |words[k]|
      ensures words[k][j] !in Metacharacters
    {
      SplitPieceChars(query, ' ', k, words[k][j]);
    }
    PlainWordsNeedNoEscape(words);
    var exp := Lookaheads(words);
    forall r | r in data
      ensures RegexTester(exp, serialise)(r) == MatchesAllWords(words, serialise)(r)
    {
      var k :| 0 <= k < |data| && data[k] == r;
      EscapedPatternMeaning(words, serialise(r));
    }
    FilterSameTest(data, RegexTester(exp, serialise), MatchesAllWords(words, serialise));
  }

  /**
   * The unescaped pattern over-matches: the query "a.b" accepts the text
   * "axb", which does not contain "a.b".
   */
  lemma UnescapedDotMatchesAnyCharacter()
    ensures RegexTest(Lookaheads(Split("a.b", ' ')), "axb")
    ensures !ContainsCI("axb", "a.b")
  {
    var body := [Literal('a'), AnyChar, Literal('b')];
    DotPatternDecodes();
    assert BodyMatchesAt(body, "axb", 0);
    assert NoLineTerminatorBetween("axb", 0, 0);
    assert LookaheadHolds(body, "axb", 0);
    assert AllHoldAt([body], "axb", 0);
    assert !MatchesAtCI("a.b", "axb", 0) by {
      assert LowerChar("axb"[1]) != LowerChar("a.b"[1]);
    }
  }

  /** The query "a.b" builds one lookahead whose body is `a`, any character, `b`. */
  lemma DotPatternDecodes()
    ensures Decode(Lookaheads(Split("a.b", ' '))) == Some([[Literal('a'), AnyChar, Literal('b')]])
  {
    SplitNoSeparator("a.b", ' ');
    var exp := Lookaheads(["a.b"]);
    assert exp == "(?=.*a.b)";
    DotBodyParses();
    var body := [Literal('a'), AnyChar, Literal('b')];
    assert exp[..5] == "(?=.*" && exp[5..] == "a.b)";
    assert Decode("") == Some([]);
    assert [body] + [] == [body];
  }

  /** The body "a.b" reads as `a`, any character, `b`, up to the closing parenthesis. */
  lemma DotBodyParses()
    ensures ParseBody("a.b)") == Some(([Literal('a'), AnyChar, Literal('b')], ""))
  {
    assert ParseBody(")") == Some(([], ""));
    assert "b)"[1..] == ")";
    assert [Literal('b')] + [] == [Literal('b')];
    assert ParseBody("b)") == Some(([Literal('b')], ""));
    assert ".b)"[1..] == "b)";
    assert [AnyChar] + [Literal('b')] == [AnyChar, Literal('b')];
    assert ParseBody(".b)") == Some(([AnyChar, Literal('b')], ""));
    assert "a.b)"[1..] == ".b)";
    assert [Literal('a')] + [AnyChar, Literal('b')] == [Literal('a'), AnyChar, Literal('b')];
  }

  /**
   * The search as written keeps every record on the empty query: the
   * pattern is the single group `(?=.*)`, which every text satisfies.
   */
  lemma AsWrittenEmptyQuery(data: seq<Record>, serialise: Record -> string)
    ensures Filter(data, RegexTester(Lookaheads(Split("", ' ')), serialise)) == data
  {
    assert Split("", ' ') == [""];
    PlainWordsNeedNoEscape([""]);
    DecodeEscapedPattern([""]);
    assert LiteralBodies([""]) == [[]];
    var exp := Lookaheads([""]);
    forall r | r in data
      ensures RegexTester(exp, serialise)(r)
    {
      var text := serialise(r);
      assert NoLineTerminatorBetween(text, 0, 0) && BodyMatchesAt([], text, 0);
      assert LookaheadHolds([], text, 0);
      assert AllHoldAt([[]], text, 0);
    }
    FilterKeepsAll(data, RegexTester(exp, serialise));
  }

  /**
   * `.*` does not cross a line terminator, and `JSON.stringify` leaves
   * U+2028 unescaped: with "ab", U+2028 and "cd" in a row, both words occur,
   * yet neither the pattern as written nor the escaped one accepts the text.
   */
  lemma LineSeparatorHidesWords()
    ensures var text := "ab" + ['\U{2028}'] + "cd";
      ContainsCI(text, "ab") && ContainsCI(text, "cd")
      && !RegexTest(Lookaheads(Split("ab cd", ' ')), text)
      && !RegexTest(Lookaheads(EscapeAll(Split("ab cd", ' '))), text)
  {
    var text := "ab" + ['\U{2028}'] + "cd";
    assert MatchesAtCI("ab", text, 0) && MatchesAtCI("cd", text, 3);
    TwoWordPatternDecodes();
    NoStartReachesBoth();
  }

  /** The query "ab cd" builds two literal groups, escaped or not. */
  lemma TwoWordPatternDecodes()
    ensures Decode(Lookaheads(Split("ab cd", ' '))) == Some([Literals("ab"), Literals("cd")])
    ensures Decode(Lookaheads(EscapeAll(Split("ab cd", ' ')))) == Some([Literals("ab"), Literals("cd")])
  {
    var words := ["ab", "cd"];
    TwoWordsSplit();
    assert Lookaheads(EscapeAll(words)) == Lookaheads(words) by {
      PlainWordsNeedNoEscape(words);
    }
    assert LiteralBodies(words) == [Literals("ab"), Literals("cd")];
    DecodeEscapedPattern(words);
  }

  lemma TwoWordsSplit()
    ensures Split("ab cd", ' ') == ["ab", "cd"]
  {
    assert "ab cd" == "ab" + [' '] + "cd";
    SplitConcat("ab", "cd", ' ');
    SplitNoSeparator("ab", ' ');
    SplitNoSeparator("cd", ' ');
  }

  /** "ab" occurs only at 0 and "cd" only past the U+2028 at 2, which `.*` cannot cross. */
  lemma NoStartReachesBoth()
    ensures !PatternMatches([Literals("ab"), Literals("cd")], "ab" + ['\U{2028}'] + "cd")
  {
    var text := "ab" + ['\U{2028}'] + "cd";
    var bodies := [Literals("ab"), Literals("cd")];
    if PatternMatches(bodies, text) {
      var p: nat :| p <= |text| && AllHoldAt(bodies, text, p);
      assert LookaheadHolds(bodies[0], text, p);
      var i: nat :| p <= i <= |text| && NoLineTerminatorBetween(text, p, i) && BodyMatchesAt(bodies[0], text, i);
      assert AtomMatches(Literal('a'), text[i]);
      assert i == 0;
      assert LookaheadHolds(bodies[1], text, 0);
      var j: nat :| j <= |text| && NoLineTerminatorBetween(text, 0, j) && BodyMatchesAt(bodies[1], text, j);
      assert AtomMatches(Literal('c'), text[j]);
      assert j == 3;
      LineSeparatorStopsReach(j);
      assert false;
    }
  }

  /** From position 0, `.*` reaches at most position 2 of "ab", U+2028, "cd". */
  lemma LineSeparatorStopsReach(j: nat)
    requires j <= 5 && NoLineTerminatorBetween("ab" + ['\U{2028}'] + "cd", 0, j)
    ensures j <= 2
  {
    var text := "ab" + ['\U{2028}'] + "cd";
    assert IsLineTerminator(text[2]);
  }

  /** The empty query splits to one empty word, which every record holds: the search keeps everything. */
  lemma SearchEmptyQuery(data: seq<Record>, serialise: Record -> string)
    ensures SearchResults(data, "", serialise) == data
  {
    assert Split("", ' ') == [""];
    forall r | r in data
      ensures MatchesAllWords([""], serialise)(r)
    {
      assert MatchesAtCI("", serialise(r), 0);
    }
    FilterKeepsAll(data, MatchesAllWords([""], serialise));
  }

  /**
   * Typing another word never widens the search: the results for
   * `query + " " + word` are the results for `query`, filtered again.
   */
  lemma SearchNarrows(data: seq<Record>, query: string, word: string, serialise: Record -> string)
    ensures SearchResults(data, query + " " + word, serialise)
      == Filter(SearchResults(data, query, serialise), MatchesAllWords(Split(query + " " + word, ' '), serialise))
    ensures IsSubsequence(SearchResults(data, query + " " + word, serialise), SearchResults(data, query, serialise))
  {
    var words, more := Split(query, ' '), Split(query + " " + word, ' ');
    SplitConcat(query, word, ' ');
    assert more == words + Split(word, ' ');
    forall r | r in data && MatchesAllWords(more, serialise)(r)
      ensures MatchesAllWords(words, serialise)(r)
    {
      forall k | 0 <= k < |words|
        ensures ContainsCI(serialise(r), words[k])
      {
        assert more[k] == words[k];
      }
    }
    FilterStricter(data, MatchesAllWords(more, serialise), MatchesAllWords(words, serialise));
  }
}
