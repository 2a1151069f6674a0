/** The glyph rewrite `calculate` applies before handing the text to the evaluator:
    three global replacements, `×` by `*`, then `÷` by `/`, then `^` by `**`. */
module Rewrite {

  const Times: char := '\U{00D7}'
  const Divide: char := '\U{00F7}'
  const Caret: char := '^'

  /** Global replacement of one character by a string, left to right (`replace(/c/g, t)`). */
  function ReplaceAll(s: string, c: char, t: string): (r: string)
    ensures forall x :: x in r ==> (x in s && x != c) || x in t
    ensures c !in s ==> r == s
    ensures |s| == 1 ==> r == if s[0] == c then t else s
  {
    if s == [] then [] else (if s[0] == c then t else [s[0]]) + ReplaceAll(s[1..], c, t)
  }

  /** The chain of three replacements, in the order the source applies them. */
  function Normalize(s: string): (r: string)
    ensures Times !in r && Divide !in r && Caret !in r
    ensures Times !in s && Divide !in s && Caret !in s ==> r == s
  {
    ReplaceAll(ReplaceAll(ReplaceAll(s, Times, "*"), Divide, "/"), Caret, "**")
  }

  /** The rewrite of a single character. */
  function Translate(c: char): string {
    if c == Times then "*" else if c == Divide then "/" else if c == Caret then "**" else [c]
  }

  /** The rewrite applied character by character, keeping the order. */
  function PerChar(s: string): string {
    if s == [] then [] else Translate(s[0]) + PerChar(s[1..])
  }

  lemma {:induction false} ReplaceAllAppend(a: string, b: string, c: char, t: string)
    ensures ReplaceAll(a + b, c, t) == ReplaceAll(a, c, t) + ReplaceAll(b, c, t)
  {
    if a == [] {
      assert a + b == b;
    } else {
      assert (a + b)[1..] == a[1..] + b;
      ReplaceAllAppend(a[1..], b, c, t);
    }
  }

  /** The three passes together act character by character: the rewrite is the
      per-character translation, so every other character keeps its place and order. */
  lemma {:induction false} NormalizeIsPerChar(s: string)
    ensures Normalize(s) == PerChar(s)
  {
    if s != [] {
      var c, rest := s[0], s[1..];
      var r1 := ReplaceAll(rest, Times, "*");
      var r2 := ReplaceAll(r1, Divide, "/");
      var t1 := if c == Times then "*" else [c];
      assert ReplaceAll(s, Times, "*") == t1 + r1;
      ReplaceAllAppend(t1, r1, Divide, "/");
      var t2 := ReplaceAll(t1, Divide, "/");
      ReplaceAllAppend(t2, r2, Caret, "**");
      assert ReplaceAll(t2, Caret, "**") == Translate(c);
      NormalizeIsPerChar(rest);
    }
  }

  /** Rewriting a concatenation rewrites the parts separately. */
  lemma NormalizeAppend(a: string, b: string)
    ensures Normalize(a + b) == Normalize(a) + Normalize(b)
  {
    ReplaceAllAppend(a, b, Times, "*");
    ReplaceAllAppend(ReplaceAll(a, Times, "*"), ReplaceAll(b, Times, "*"), Divide, "/");
    ReplaceAllAppend(ReplaceAll(ReplaceAll(a, Times, "*"), Divide, "/"),
                     ReplaceAll(ReplaceAll(b, Times, "*"), Divide, "/"), Caret, "**");
  }

  /** Each `^` becomes exactly two characters, every other character exactly one. */
  lemma {:induction false} NormalizeLength(s: string)
    ensures |Normalize(s)| == |s| + multiset(s)[Caret]
  {
    if s != [] {
      NormalizeAppend([s[0]], s[1..]);
      assert [s[0]] + s[1..] == s;
      NormalizeIsPerChar([s[0]]);
      NormalizeLength(s[1..]);
      assert multiset(s) == multiset([s[0]]) + multiset(s[1..]);
    }
  }
}
