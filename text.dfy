/** The string operations the column-name steps use: Python's `str.lower()`,
    `str.replace(" ", "_")` and the substring test `part in s`. */
module Text {

  predicate IsUpper(c: char) {
    'A' <= c <= 'Z'
  }

  /** `c.lower()` for ASCII letters; any other character is unchanged. */
  function LowerChar(c: char): char {
    if IsUpper(c) then (c as int + 32) as char else c
  }

  /** `s.lower()` */
  function Lower(s: string): string {
    seq(|s|, i requires 0 <= i < |s| => LowerChar(s[i]))
  }

  /** `s.replace(" ", "_")`: every single space becomes one underscore. */
  function ReplaceSpaces(s: string): string {
    seq(|s|, i requires 0 <= i < |s| => if s[i] == ' ' then '_' else s[i])
  }

  /** `s.lower().replace(" ", "_")`, the snake-casing both tutorials apply. */
  function Snake(s: string): string {
    ReplaceSpaces(Lower(s))
  }

  /** No space and no upper-case ASCII letter. */
  predicate IsSnake(s: string) {
    forall i :: 0 <= i < |s| ==> s[i] != ' ' && !IsUpper(s[i])
  }

  /** `part in s` */
  predicate Contains(s: string, part: string)
    decreases |s|
  {
    if |s| < |part| then false
    else s[..|part|] == part || Contains(s[1..], part)
  }

  lemma SnakeIsSnake(s: string)
    ensures IsSnake(Snake(s))
  {
  }

  /** Snake-casing a name that is already snake case changes nothing. */
  lemma SnakeKeepsSnake(s: string)
    requires IsSnake(s)
    ensures Snake(s) == s
  {
  }

  lemma SnakeIdempotent(s: string)
    ensures Snake(Snake(s)) == Snake(s)
  {
    SnakeIsSnake(s);
    SnakeKeepsSnake(Snake(s));
  }

  /** Snake-casing works character by character, so it distributes over `+`. */
  lemma SnakeAppend(a: string, b: string)
    ensures Snake(a + b) == Snake(a) + Snake(b)
  {
  }

  /** The f-string `f"{c1} {c2}"` snake-cases to the two parts joined by `_`. */
  lemma SnakeJoin(c1: string, c2: string)
    ensures Snake(c1 + " " + c2) == Snake(c1) + "_" + Snake(c2)
  {
    SnakeAppend(c1 + " ", c2);
    SnakeAppend(c1, " ");
  }

  /** The list comprehension that snake-cases every label. */
  function SnakeAll(cols: seq<string>): (r: seq<string>)
    ensures |r| == |cols| && forall i :: 0 <= i < |cols| ==> r[i] == Snake(cols[i])
    ensures forall c :: c in r ==> IsSnake(c)
  {
    seq(|cols|, i requires 0 <= i < |cols| => Snake(cols[i]))
  }
}
