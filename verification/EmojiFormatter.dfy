/** Replacing emoji shortcodes in one text node: the character scan, and which shortcodes it
    replaces, said without it. */
module EmojiFormatter {
  import opened Options

  /** A node of the result: a text node, or the image standing for a shortcode. */
  datatype Piece = Plain(content: string) | Emoji(shortcode: string)

  function Source(p: Piece): string {
    match p
    case Plain(content) => content
    case Emoji(shortcode) => [':'] + shortcode + [':']
  }

  /** The text the pieces came from. */
  function Flatten(pieces: seq<Piece>): string
    decreases |pieces|
  {
    if pieces == [] then [] else Flatten(pieces[..|pieces| - 1]) + Source(pieces[|pieces| - 1])
  }

  /** Where the replaced shortcodes start and end, colons included. */
  function Spans(pieces: seq<Piece>): set<(nat, nat)>
    decreases |pieces|
  {
    if pieces == [] then {} else
    var before := pieces[..|pieces| - 1];
    var last := pieces[|pieces| - 1];
    if last.Plain? then Spans(before)
    else Spans(before) + {(|Flatten(before)|, |Flatten(before)| + |last.shortcode| + 1)}
  }

  /** Characters that may not stand next to a shortcode; `alnum` is the class of letters and
      digits. */
  predicate Disallowed(alnum: char -> bool, c: char) {
    alnum(c) || c == ':'
  }

  // ----- Which shortcodes are replaced

  /** The nearest colon before position `a`. */
  function PreviousColon(text: string, a: nat): (p: Option<nat>)
    requires a <= |text|
    ensures p.Some? ==> p.value < a && text[p.value] == ':' && forall j | p.value < j < a :: text[j] != ':'
    ensures p.None? ==> forall j | 0 <= j < a :: text[j] != ':'
  {
    if a == 0 then None
    else if text[a - 1] == ':' then Some(a - 1)
    else PreviousColon(text, a - 1)
  }

  /** A colon opens a shortcode when nothing disallowed stands before it and it does not
      close one that the colon before it opened. */
  predicate Opens(text: string, alnum: char -> bool, a: nat)
    requires a < |text|
    decreases a
  {
    text[a] == ':' && (a == 0 || !Disallowed(alnum, text[a - 1])) &&
    match PreviousColon(text, a)
    case None => true
    case Some(p) => !Opens(text, alnum, p)
  }

  /** The span from an opening colon to the next one, with nothing disallowed after it, and a
      known shortcode between. */
  predicate Replaceable(text: string, alnum: char -> bool, known: set<string>, a: nat, b: nat) {
    a < b < |text| && text[b] == ':' && PreviousColon(text, b) == Some(a) && Opens(text, alnum, a) &&
    (b + 1 == |text| || !Disallowed(alnum, text[b + 1])) && text[a + 1..b] in known
  }

  // ----- The scan

  /** What the scan knows after `n` characters: the spans ending before there, and whether the
      last colon opened one. */
  ghost predicate Scanned(text: string, alnum: char -> bool, known: set<string>, spans: set<(nat, nat)>,
                          n: nat, inside: bool, start: int)
  {
    n <= |text| &&
    var last := PreviousColon(text, n);
    && (inside ==> last.Some? && start == last.value && Opens(text, alnum, last.value))
    && (!inside && last.Some? ==> !Opens(text, alnum, last.value))
    && forall a: nat, b: nat :: (a, b) in spans <==> Replaceable(text, alnum, known, a, b) && b < n
  }

  lemma ScanOther(text: string, alnum: char -> bool, known: set<string>, spans: set<(nat, nat)>,
                  n: nat, inside: bool, start: int)
    requires Scanned(text, alnum, known, spans, n, inside, start) && n < |text| && text[n] != ':'
    ensures Scanned(text, alnum, known, spans, n + 1, inside, start)
  {
    hide Opens;
  }

  /** A colon met outside opens a shortcode exactly when nothing disallowed stands before it. */
  lemma ScanOutside(text: string, alnum: char -> bool, known: set<string>, spans: set<(nat, nat)>, n: nat, start: int)
    requires Scanned(text, alnum, known, spans, n, false, start) && n < |text| && text[n] == ':'
    ensures if n == 0 || !Disallowed(alnum, text[n - 1]) then Scanned(text, alnum, known, spans, n + 1, true, n)
      else Scanned(text, alnum, known, spans, n + 1, false, start)
  {
  }

  /** Inside a shortcode the scan knows where it opened. */
  lemma ScanStarted(text: string, alnum: char -> bool, known: set<string>, spans: set<(nat, nat)>, n: nat, start: int)
    requires Scanned(text, alnum, known, spans, n, true, start)
    ensures 0 <= start < n <= |text| && text[start] == ':'
    ensures n < |text| && text[n] == ':' ==> (Replaceable(text, alnum, known, start, n) <==>
      (n + 1 == |text| || !Disallowed(alnum, text[n + 1])) && text[start + 1..n] in known)
  {
  }

  lemma ScanBegins(text: string, alnum: char -> bool, known: set<string>)
    ensures Scanned(text, alnum, known, {}, 0, false, -1)
  {
  }

  lemma ScanEnds(text: string, alnum: char -> bool, known: set<string>, spans: set<(nat, nat)>, inside: bool,
                 start: int)
    requires Scanned(text, alnum, known, spans, |text|, inside, start)
    ensures forall a: nat, b: nat :: (a, b) in spans <==> Replaceable(text, alnum, known, a, b)
  {
  }

  /** A colon met inside closes the shortcode, whether it is replaced or not. */
  lemma ScanClosing(text: string, alnum: char -> bool, known: set<string>, spans: set<(nat, nat)>, n: nat, start: nat)
    requires Scanned(text, alnum, known, spans, n, true, start) && n < |text| && text[n] == ':'
    ensures if Replaceable(text, alnum, known, start, n)
      then Scanned(text, alnum, known, spans + {(start, n)}, n + 1, false, start)
      else Scanned(text, alnum, known, spans, n + 1, false, start)
  {
  }

  /** Text nodes and images in turn. */
  predicate Alternates(pieces: seq<Piece>) {
    forall k | 0 < k < |pieces| :: pieces[k].Plain? != pieces[k - 1].Plain?
  }

  predicate EndsWithImage(pieces: seq<Piece>) {
    Alternates(pieces) && (pieces != [] ==> pieces[|pieces| - 1].Emoji?)
  }

  /** One more shortcode, after the text before it unless there can be none. */
  function WithShortcode(pieces: seq<Piece>, start: nat, plain: string, shortcode: string): seq<Piece> {
    pieces + (if start > 0 then [Plain(plain)] else []) + [Emoji(shortcode)]
  }

  lemma ShortcodeAlternates(pieces: seq<Piece>, start: nat, plain: string, shortcode: string)
    requires EndsWithImage(pieces) && (pieces != [] ==> start > 0)
    ensures EndsWithImage(WithShortcode(pieces, start, plain, shortcode))
    ensures WithShortcode(pieces, start, plain, shortcode) != []
  {
  }

  lemma LastTextAlternates(pieces: seq<Piece>, plain: string)
    requires EndsWithImage(pieces)
    ensures Alternates(pieces + [Plain(plain)])
  {
  }

  method Format(text: string, alnum: char -> bool, known: set<string>) returns (result: seq<Piece>)
    ensures Flatten(result) == text
    ensures Alternates(result) && result != [] && result[|result| - 1].Plain?
    ensures forall a: nat, b: nat :: (a, b) in Spans(result) <==> Replaceable(text, alnum, known, a, b)
  {
    hide Flatten, Spans, Alternates, EndsWithImage, WithShortcode, Scanned, Replaceable, Disallowed;
    var i := -1;
    var insideShortname := false;
    var shortnameStart := -1;
    var lastIndex := 0;
    result := [];
    NothingYet();
    NoPieces();
    ScanBegins(text, alnum, known);
    while i + 1 < |text|
      invariant -1 <= i < |text| && 0 <= lastIndex <= i + 1
      invariant insideShortname ==> lastIndex <= shortnameStart
      invariant Flatten(result) == text[..lastIndex]
      invariant EndsWithImage(result) && (result == [] <==> lastIndex == 0)
      invariant Scanned(text, alnum, known, Spans(result), i + 1, insideShortname, shortnameStart)
      decreases |text| - i
    {
      i := i + 1;
      if insideShortname && text[i] == ':' {
        insideShortname := false;
        ScanStarted(text, alnum, known, Spans(result), i, shortnameStart);
        var shortcode := text[shortnameStart + 1..i];
        ScanClosing(text, alnum, known, Spans(result), i, shortnameStart);
        if (i + 1 < |text| && Disallowed(alnum, text[i + 1])) || shortcode !in known { continue; }
        ShortcodeAlternates(result, shortnameStart, text[lastIndex..shortnameStart], shortcode);
        result := EmitShortcode(text, result, lastIndex, shortnameStart, i);
        lastIndex := i + 1;
      } else if text[i] == ':' && (i == 0 || !Disallowed(alnum, text[i - 1])) {
        ScanOutside(text, alnum, known, Spans(result), i, shortnameStart);
        insideShortname := true;
        shortnameStart := i;
      } else if text[i] == ':' {
        ScanOutside(text, alnum, known, Spans(result), i, shortnameStart);
      } else {
        ScanOther(text, alnum, known, Spans(result), i, insideShortname, shortnameStart);
      }
    }
    ScanEnds(text, alnum, known, Spans(result), insideShortname, shortnameStart);
    FlattenAppend(result, Plain(text[lastIndex..]));
    SpansAppend(result, Plain(text[lastIndex..]));
    LastTextAlternates(result, text[lastIndex..]);
    result := result + [Plain(text[lastIndex..])];
    assert text == text[..lastIndex] + text[lastIndex..];
  }

  lemma NoPieces()
    ensures EndsWithImage([])
  {
  }

  lemma NothingYet()
    ensures Flatten([]) == [] && Spans([]) == {}
  {
  }

  /** The text since the last replaced shortcode, if there can be any, and the shortcode. */
  method EmitShortcode(text: string, pieces: seq<Piece>, lastIndex: nat, start: nat, end: nat)
    returns (result: seq<Piece>)
    requires lastIndex <= start < end < |text| && text[start] == ':' && text[end] == ':'
    requires Flatten(pieces) == text[..lastIndex]
    ensures Flatten(result) == text[..end + 1] && Spans(result) == Spans(pieces) + {(start, end)}
    ensures result == WithShortcode(pieces, start, text[lastIndex..start], text[start + 1..end])
  {
    hide Flatten, Spans, Source;
    var plain, emoji := Plain(text[lastIndex..start]), Emoji(text[start + 1..end]);
    result := pieces;
    FlattenAppend(pieces, plain);
    SpansAppend(pieces, plain);
    PlainSource(text[lastIndex..start]);
    assert text[..start] == text[..lastIndex] + text[lastIndex..start];
    if start > 0 {
      result := result + [plain];
    }
    FlattenAppend(result, emoji);
    SpansAppend(result, emoji);
    ShortcodeSource(text, start, end);
    result := result + [emoji];
    assert text[..end + 1] == text[..start] + text[start..end + 1];
  }

  lemma PlainSource(content: string)
    ensures Source(Plain(content)) == content
  {
  }

  lemma ShortcodeSource(text: string, start: nat, end: nat)
    requires start < end < |text| && text[start] == ':' && text[end] == ':'
    ensures Source(Emoji(text[start + 1..end])) == text[start..end + 1]
  {
    assert text[start..end + 1] == [text[start]] + text[start + 1..end] + [text[end]];
  }

  lemma FlattenAppend(pieces: seq<Piece>, p: Piece)
    ensures Flatten(pieces + [p]) == Flatten(pieces) + Source(p)
  {
    hide Source;
    var all := pieces + [p];
    assert all[|all| - 1] == p && all[..|all| - 1] == pieces;
  }

  lemma SpansAppend(pieces: seq<Piece>, p: Piece)
    ensures Spans(pieces + [p]) == if p.Plain? then Spans(pieces)
      else Spans(pieces) + {(|Flatten(pieces)|, |Flatten(pieces)| + |p.shortcode| + 1)}
  {
    hide Flatten;
    var all := pieces + [p];
    assert all[|all| - 1] == p && all[..|all| - 1] == pieces;
  }

  // ----- What that says about the replaced spans

  /** Replaced spans do not touch, contain no colon inside, and stand between characters that
      are neither letters, digits nor colons, or at the ends of the text. */
  lemma ReplacedSpansApart(text: string, alnum: char -> bool, known: set<string>, a: nat, b: nat, c: nat, d: nat)
    requires Replaceable(text, alnum, known, a, b) && Replaceable(text, alnum, known, c, d) && a <= c
    ensures (a, b) == (c, d) || b + 1 < c
    ensures forall j | a < j < b :: text[j] != ':'
    ensures (a == 0 || !Disallowed(alnum, text[a - 1])) && (b + 1 == |text| || !Disallowed(alnum, text[b + 1]))
  {
    if a != c {
      assert b <= c;
      assert !Opens(text, alnum, b);
      assert text[c] == ':' && text[b + 1] != ':';
    }
  }

  /** A colon that closes a rejected shortcode cannot open the next one: a known shortcode with
      a stray opening colon before it is left as text. */
  lemma StrayColonHidesShortcode(code: string, alnum: char -> bool, known: set<string>)
    requires ':' !in code && !alnum(' ') && |code| > 0
    ensures var text := ": :" + code + ":";
      forall a: nat, b: nat :: !(a == 2 && Replaceable(text, alnum, known, a, b))
  {
    var text := ": :" + code + ":";
    assert text[0] == ':' && text[1] == ' ' && text[2] == ':';
    assert PreviousColon(text, 0) == None;
    assert PreviousColon(text, 2) == Some(0);
    assert Opens(text, alnum, 0);
  }
}
