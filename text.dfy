/**
 * Strings as the engine uses them: JavaScript's `split` on a one-character
 * separator, `join`, `toLowerCase` (ASCII letters only) and the
 * case-insensitive "occurs somewhere" test.
 */
module Text {

  /** `toLowerCase` on one character; only the ASCII letters are folded. */
  function LowerChar(c: char): char {
    if 'A' <= c <= 'Z' then (c as int + 32) as char else c
  }

  predicate IsLetter(c: char) {
    'A' <= c <= 'Z' || 'a' <= c <= 'z'
  }

  /** `s.toLowerCase()`. */
  function Lower(s: string): (r: string)
    ensures |r| == |s|
    ensures forall k :: 0 <= k < |r| ==> !('A' <= r[k] <= 'Z')
    ensures forall k :: 0 <= k < |r| ==> IsLetter(r[k]) == IsLetter(s[k])
  {
    seq(|s|, i requires 0 <= i < |s| => LowerChar(s[i]))
  }

  /** Lowering twice is lowering once, and characters that are not letters survive unchanged. */
  lemma LowerIdempotent(s: string)
    ensures Lower(Lower(s)) == Lower(s)
    ensures forall c :: !IsLetter(c) ==> (c in Lower(s) <==> c in s)
  {
    forall c | !IsLetter(c)
      ensures c in Lower(s) <==> c in s
    {
      if c in s {
        var i :| 0 <= i < |s| && s[i] == c;
        assert Lower(s)[i] == c;
      }
      if c in Lower(s) {
        var i :| 0 <= i < |s| && Lower(s)[i] == c;
        assert s[i] == c;
      }
    }
  }

  /** `w` occurs in `s` at position `i`, letters compared without regard to case. */
  predicate MatchesAtCI(w: string, s: string, i: nat) {
    i + |w| <= |s| && forall k :: 0 <= k < |w| ==> LowerChar(s[i + k]) == LowerChar(w[k])
  }

  /** `w` occurs somewhere in `s`, letters compared without regard to case. */
  predicate ContainsCI(s: string, w: string) {
    exists i: nat | i <= |s| :: MatchesAtCI(w, s, i)
  }

  /** `s.split(sep)` for a one-character separator: the pieces between separators, in order. */
  function Split(s: string, sep: char): (parts: seq<string>)
    ensures |parts| >= 1
    ensures forall k :: 0 <= k < |parts| ==> sep !in parts[k]
  {
    if s == [] then [[]]
    else
      var rest := Split(s[1..], sep);
      if s[0] == sep then [[]] + rest
      else [[s[0]] + rest[0]] + rest[1..]
  }

  /** `parts.join(sep)`. */
  function Join(parts: seq<string>, sep: char): string {
    if parts == [] then []
    else if |parts| == 1 then parts[0]
    else parts[0] + [sep] + Join(parts[1..], sep)
  }

  /** A string without the separator is a single piece. */
  lemma {:induction false} SplitNoSeparator(s: string, sep: char)
    requires sep !in s
    ensures Split(s, sep) == [s]
  {
    if s != [] {
      SplitNoSeparator(s[1..], sep);
      assert [s[0]] + s[1..] == s;
    }
  }

  /** Splitting distributes over a separator: the pieces of `a` followed by the pieces of `b`. */
  lemma {:induction false} SplitConcat(a: string, b: string, sep: char)
    ensures Split(a + [sep] + b, sep) == Split(a, sep) + Split(b, sep)
  {
    if a == [] {
      assert a + [sep] + b == [sep] + b;
      assert ([sep] + b)[1..] == b;
    } else {
      var s := a + [sep] + b;
      assert s[0] == a[0];
      assert s[1..] == a[1..] + [sep] + b;
      SplitConcat(a[1..], b, sep);
    }
  }

  /** Joining the pieces gives back the string. */
  lemma {:induction false} JoinSplit(s: string, sep: char)
    ensures Join(Split(s, sep), sep) == s
  {
    if s != [] {
      var rest := Split(s[1..], sep);
      JoinSplit(s[1..], sep);
      if s[0] == sep {
        assert ([[]] + rest)[1..] == rest;
        assert s == [sep] + s[1..];
      } else {
        var parts := [[s[0]] + rest[0]] + rest[1..];
        if |rest| == 1 {
          assert Join(parts, sep) == [s[0]] + rest[0];
        } else {
          assert parts[1..] == rest[1..];
          assert Join(rest, sep) == rest[0] + [sep] + Join(rest[1..], sep);
        }
        assert s == [s[0]] + s[1..];
      }
    }
  }

  /** Splitting a join of separator-free pieces gives back the pieces. */
  lemma {:induction false} SplitJoin(parts: seq<string>, sep: char)
    requires |parts| >= 1
    requires forall k :: 0 <= k < |parts| ==> sep !in parts[k]
    ensures Split(Join(parts, sep), sep) == parts
  {
    if |parts| == 1 {
      SplitNoSeparator(parts[0], sep);
    } else {
      SplitJoin(parts[1..], sep);
      SplitNoSeparator(parts[0], sep);
      SplitConcat(parts[0], Join(parts[1..], sep), sep);
      assert [parts[0]] + parts[1..] == parts;
    }
  }

  /** Every character of a piece is a character of the string. */
  lemma {:induction false} SplitPieceChars(s: string, sep: char, k: nat, c: char)
    requires k < |Split(s, sep)| && c in Split(s, sep)[k]
    ensures c in s
  {
    if s != [] {
      var rest := Split(s[1..], sep);
      if s[0] == sep {
        assert k > 0 && Split(s, sep)[k] == rest[k - 1];
        SplitPieceChars(s[1..], sep, k - 1, c);
      } else if k == 0 {
        if c != s[0] {
          assert c in rest[0];
          SplitPieceChars(s[1..], sep, 0, c);
        }
      } else {
        assert Split(s, sep)[k] == rest[k];
        SplitPieceChars(s[1..], sep, k, c);
      }
    }
  }

  /**
   * The first piece is the text before the first separator: a prefix of `s`
   * without the separator, that is either all of `s` or stops at a separator.
   */
  lemma {:induction false} SplitHead(s: string, sep: char)
    ensures var h := Split(s, sep)[0];
      h <= s && sep !in h && (h == s || s[|h|] == sep)
  {
    if s != [] {
      SplitHead(s[1..], sep);
    }
  }
}
