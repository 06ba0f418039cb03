/** String operations on ASCII text. */
module Text {

  /** What `\s` and `String#split` take for whitespace. */
  predicate IsSpace(c: char) {
    c == ' ' || c == '\t' || c == '\n' || c == '\r' || c == (11 as char) || c == (12 as char)
  }

  predicate Blank(s: string) {
    forall i | 0 <= i < |s| :: IsSpace(s[i])
  }

  /** How much whitespace `s` starts with. */
  function SpaceLen(s: string): (n: nat)
    ensures n <= |s|
  {
    if s == [] || !IsSpace(s[0]) then 0 else 1 + SpaceLen(s[1..])
  }

  function LStrip(s: string): string {
    s[SpaceLen(s)..]
  }

  function LowerChar(c: char): char {
    if 'A' <= c <= 'Z' then (c as int + 32) as char else c
  }

  function UpperChar(c: char): char {
    if 'a' <= c <= 'z' then (c as int - 32) as char else c
  }

  function Downcase(s: string): (r: string)
    ensures |r| == |s| && forall i | 0 <= i < |s| :: r[i] == LowerChar(s[i])
  {
    if s == [] then [] else [LowerChar(s[0])] + Downcase(s[1..])
  }

  function Capitalize(s: string): string {
    if s == [] then [] else [UpperChar(s[0])] + Downcase(s[1..])
  }

  function Join(parts: seq<string>, separator: string): string
    decreases |parts|
  {
    if parts == [] then []
    else if |parts| == 1 then parts[0]
    else parts[0] + separator + Join(parts[1..], separator)
  }

  /** The length of the longest prefix without whitespace. */
  function WordLen(s: string): (n: nat)
    ensures n <= |s|
  {
    if s == [] || IsSpace(s[0]) then 0 else 1 + WordLen(s[1..])
  }

  /** `split` without a separator. */
  function Words(s: string): seq<string>
    decreases |s|
  {
    if s == [] then []
    else if IsSpace(s[0]) then Words(s[1..])
    else [s[..WordLen(s)]] + Words(s[WordLen(s)..])
  }

  predicate NoSpaces(s: string) {
    forall i | 0 <= i < |s| :: !IsSpace(s[i])
  }

  predicate Word(s: string) {
    s != [] && NoSpaces(s)
  }

  function DowncaseAll(names: seq<string>): (r: seq<string>)
    ensures |r| == |names| && forall i | 0 <= i < |names| :: r[i] == Downcase(names[i])
    decreases |names|
  {
    if names == [] then [] else [Downcase(names[0])] + DowncaseAll(names[1..])
  }

  // ----- Laws

  lemma DowncaseConcat(a: string, b: string)
    ensures Downcase(a + b) == Downcase(a) + Downcase(b)
  {
  }

  lemma NothingToDowncase(s: string)
    requires forall i | 0 <= i < |s| :: !('A' <= s[i] <= 'Z')
    ensures Downcase(s) == s
  {
  }

  lemma DowncaseTwice(s: string)
    ensures Downcase(Downcase(s)) == Downcase(s)
  {
    NothingToDowncase(Downcase(s));
  }

  lemma CapitalizeCons(c: char, rest: string)
    ensures Capitalize([c] + rest) == [UpperChar(c)] + Downcase(rest)
    ensures Downcase([c] + rest) == [LowerChar(c)] + Downcase(rest)
  {
    assert ([c] + rest)[1..] == rest;
  }

  lemma CapitalizeLoweredCons(c: char, rest: string)
    ensures Capitalize(Downcase([c] + rest)) == Capitalize([c] + rest)
  {
    hide Capitalize, Downcase;
    CapitalizeCons(c, rest);
    CapitalizeCons(LowerChar(c), Downcase(rest));
    DowncaseTwice(rest);
  }

  lemma CapitalizeLowered(s: string)
    ensures Capitalize(Downcase(s)) == Capitalize(s)
  {
    if s != [] {
      CapitalizeLoweredCons(s[0], s[1..]);
      assert s == [s[0]] + s[1..];
    }
  }

  lemma {:induction false} DowncaseJoin(names: seq<string>, separator: string)
    requires Downcase(separator) == separator
    ensures Downcase(Join(names, separator)) == Join(DowncaseAll(names), separator)
    decreases |names|
  {
    if |names| > 1 {
      var lowered := DowncaseAll(names);
      assert lowered[1..] == DowncaseAll(names[1..]);
      DowncaseConcat(names[0] + separator, Join(names[1..], separator));
      DowncaseConcat(names[0], separator);
      DowncaseJoin(names[1..], separator);
    }
  }

  lemma DowncaseWord(s: string)
    requires Word(s)
    ensures Word(Downcase(s))
  {
    forall i | 0 <= i < |s| ensures !IsSpace(LowerChar(s[i])) {}
  }

  lemma {:induction false} WordLenOf(word: string, rest: string)
    requires NoSpaces(word)
    requires rest == [] || IsSpace(rest[0])
    ensures WordLen(word + rest) == |word|
    decreases |word|
  {
    if word == [] {
      assert word + rest == rest;
    } else {
      assert (word + rest)[1..] == word[1..] + rest;
      WordLenOf(word[1..], rest);
    }
  }

  lemma WordsStep(word: string, rest: string)
    requires Word(word)
    ensures Words(word) == [word] && Words(word + ([' '] + rest)) == [word] + Words(rest)
  {
    var s := word + ([' '] + rest);
    WordLenOf(word, [' '] + rest);
    WordLenOf(word, []);
    assert word + [] == word;
    hide WordLen;
    assert s[..|word|] == word && s[|word|..] == [' '] + rest && ([' '] + rest)[1..] == rest;
  }

  /** Words joined by single spaces are found again. */
  lemma {:induction false} WordsOfJoin(words: seq<string>)
    requires forall w | w in words :: Word(w)
    ensures Words(Join(words, " ")) == words
    decreases |words|
  {
    hide Words;
    if words == [] {
      WordsOfNothing();
    } else if |words| == 1 {
      WordsStep(words[0], []);
    } else {
      var rest := Join(words[1..], " ");
      WordsStep(words[0], rest);
      WordsOfJoin(words[1..]);
      assert Join(words, " ") == words[0] + ([' '] + rest);
    }
  }

  lemma WordsOfNothing()
    ensures Words([]) == []
  {
  }

  // ----- Splitting on one character

  /** The length of the longest prefix without `c`. */
  function LenTo(s: string, c: char): (n: nat)
    ensures n <= |s| && (n < |s| ==> s[n] == c) && c !in s[..n]
  {
    if s == [] || s[0] == c then 0 else
      var n := LenTo(s[1..], c);
      assert s[..n + 1] == [s[0]] + s[1..][..n];
      1 + n
  }

  /** All the fields between occurrences of `c`, empty ones included. */
  function Fields(s: string, c: char): seq<string>
    decreases |s|
  {
    var n := LenTo(s, c);
    if n == |s| then [s] else [s[..n]] + Fields(s[n + 1..], c)
  }

  function DropTrailingEmpty(parts: seq<string>): seq<string> {
    if parts != [] && parts[|parts| - 1] == [] then DropTrailingEmpty(parts[..|parts| - 1]) else parts
  }

  /** Ruby's `split(c)`, which drops empty fields at the end. */
  function Split(s: string, c: char): seq<string> {
    DropTrailingEmpty(Fields(s, c))
  }

  lemma {:induction false} LenToOf(part: string, rest: string, c: char)
    requires c !in part && (rest == [] || rest[0] == c)
    ensures LenTo(part + rest, c) == |part|
    decreases |part|
  {
    if part == [] {
      assert part + rest == rest;
    } else {
      assert (part + rest)[1..] == part[1..] + rest;
      LenToOf(part[1..], rest, c);
    }
  }

  lemma FieldsStep(part: string, rest: string, c: char)
    requires c !in part
    ensures Fields(part, c) == [part] && Fields(part + ([c] + rest), c) == [part] + Fields(rest, c)
  {
    var s := part + ([c] + rest);
    LenToOf(part, [c] + rest, c);
    LenToOf(part, [], c);
    assert part + [] == part;
    hide LenTo;
    assert s[..|part|] == part && s[|part| + 1..] == rest;
  }

  lemma {:induction false} FieldsOfJoin(parts: seq<string>, c: char)
    requires parts != [] && forall p | p in parts :: c !in p
    ensures Fields(Join(parts, [c]), c) == parts
    decreases |parts|
  {
    hide Fields;
    if |parts| == 1 {
      FieldsStep(parts[0], [], c);
    } else {
      var rest := Join(parts[1..], [c]);
      FieldsStep(parts[0], rest, c);
      FieldsOfJoin(parts[1..], c);
      assert Join(parts, [c]) == parts[0] + ([c] + rest);
    }
  }

  lemma {:induction false} FieldsHoldNone(s: string, c: char)
    ensures forall p | p in Fields(s, c) :: c !in p
    decreases |s|
  {
    var n := LenTo(s, c);
    if n < |s| {
      FieldsHoldNone(s[n + 1..], c);
    } else {
      assert s[..n] == s;
    }
  }

  lemma SplitOfJoin(parts: seq<string>, c: char)
    requires parts != [] && forall p | p in parts :: c !in p && p != []
    ensures Split(Join(parts, [c]), c) == parts
  {
    FieldsOfJoin(parts, c);
    assert parts[|parts| - 1] in parts;
  }
}
