/** Exactly which `Signature` headers are read, and as what: parameters written in any of the ways
    the syntax allows, with whitespace anywhere between their parts. */
module SignatureGrammar {
  import opened Options
  import opened Text
  import opened SignatureParser

  /** One parameter as it is written: its key, the whitespace before and after the equals sign, its
      value in quotes or not, the whitespace after it, and after the comma that follows. */
  datatype Part = Part(
    key: string, before: string, after: string, value: string, quoted: bool, gap: string, lead: string)

  predicate WellWritten(p: Part) {
    && Token(p.key) && Blank(p.before) && Blank(p.after) && Blank(p.gap) && Blank(p.lead)
    && (if p.quoted then QuotedBody(p.value) else Token(p.value))
  }

  predicate AllWellWritten(parts: seq<Part>) {
    forall i | 0 <= i < |parts| :: WellWritten(parts[i])
  }

  function ValueThen(p: Part, rest: string): string {
    if p.quoted then Quoted(p.value, rest) else p.value + rest
  }

  function PartThen(p: Part, rest: string): string {
    p.key + (p.before + (['='] + (p.after + ValueThen(p, p.gap + rest))))
  }

  /** The parameters one after the other, with commas between them. */
  function Written(parts: seq<Part>): string
    decreases |parts|
  {
    if parts == [] then []
    else PartThen(parts[0], if |parts| == 1 then [] else [','] + (parts[0].lead + Written(parts[1..])))
  }

  /** No key is repeated, or among those already read. */
  predicate Fresh(parts: seq<Part>, params: map<string, string>)
    decreases |parts|
  {
    parts == [] ||
    (parts[0].key !in params && Fresh(parts[1..], params[parts[0].key := parts[0].value]))
  }

  function Fill(params: map<string, string>, parts: seq<Part>): map<string, string>
    decreases |parts|
  {
    if parts == [] then params else Fill(params[parts[0].key := parts[0].value], parts[1..])
  }

  // ----- What is written is read

  lemma {:induction false} SpaceLenOf(blanks: string, rest: string)
    requires Blank(blanks) && (rest == [] || !IsSpace(rest[0]))
    ensures SpaceLen(blanks + rest) == |blanks|
    decreases |blanks|
  {
    if blanks == [] {
      assert blanks + rest == rest;
    } else {
      assert (blanks + rest)[1..] == blanks[1..] + rest;
      SpaceLenOf(blanks[1..], rest);
    }
  }

  lemma StrippedOf(blanks: string, rest: string)
    requires Blank(blanks) && (rest == [] || !IsSpace(rest[0]))
    ensures LStrip(blanks + rest) == rest
  {
    SpaceLenOf(blanks, rest);
    assert (blanks + rest)[|blanks|..] == rest;
  }

  lemma BlankThenNoToken(blanks: string, rest: string)
    requires Blank(blanks) && (rest == [] || !TokenChar(rest[0]))
    ensures blanks + rest == [] || !TokenChar((blanks + rest)[0])
  {
    if blanks != [] { assert IsSpace(blanks[0]); }
  }

  lemma ScanWrittenKey(p: Part, tail: string)
    requires WellWritten(p) && tail != [] && !IsSpace(tail[0])
    ensures ScanKey(p.key + (p.before + (['='] + (p.after + tail)))) == Some(Scanned(p.key, tail))
  {
    hide QuotedBody;
    var equals := ['='] + (p.after + tail);
    var s := p.key + (p.before + equals);
    BlankThenNoToken(p.before, equals);
    TokenLenOf(p.key, p.before + equals);
    assert s[..|p.key|] == p.key && s[|p.key|..] == p.before + equals;
    StrippedOf(p.before, equals);
    assert equals[1..] == p.after + tail;
    StrippedOf(p.after, tail);
    hide LStrip, TokenLen;
  }

  lemma ScanWrittenValue(p: Part, rest: string)
    requires WellWritten(p) && (rest == [] || rest[0] == ',')
    ensures ScanValue(ValueThen(p, p.gap + rest)) == Some(Scanned(p.value, p.gap + rest))
    ensures ValueThen(p, p.gap + rest) != [] && !IsSpace(ValueThen(p, p.gap + rest)[0])
  {
    if p.quoted {
      ScanPrintedValue(p.value, p.gap + rest);
    } else {
      BlankThenNoToken(p.gap, rest);
      TokenLenOf(p.value, p.gap + rest);
      var s := p.value + (p.gap + rest);
      assert s[0] == p.value[0] && TokenChar(p.value[0]);
      assert s[..|p.value|] == p.value && s[|p.value|..] == p.gap + rest;
    }
  }

  lemma ScanWritten(p: Part, rest: string)
    requires WellWritten(p) && (rest == [] || rest[0] == ',')
    ensures ScanParam(PartThen(p, rest)) == Some(Param(p.key, p.value, p.gap + rest))
  {
    ScanWrittenValue(p, rest);
    ScanWrittenKey(p, ValueThen(p, p.gap + rest));
    hide ScanKey, ScanValue, ValueThen;
  }

  lemma AfterWritten(p: Part, next: string)
    requires WellWritten(p) && (next == [] || !IsSpace(next[0]))
    ensures AfterParam(p.gap + []) == End
    ensures AfterParam(p.gap + ([','] + (p.lead + next))) == More(next)
  {
    StrippedOf(p.gap, []);
    StrippedOf(p.gap, [','] + (p.lead + next));
    assert ([','] + (p.lead + next))[1..] == p.lead + next;
    StrippedOf(p.lead, next);
    hide LStrip;
  }

  lemma WrittenStarts(parts: seq<Part>)
    requires parts != [] && AllWellWritten(parts)
    ensures Written(parts) != [] && !IsSpace(Written(parts)[0])
  {
    assert WellWritten(parts[0]);
    assert Written(parts)[0] == parts[0].key[0] && TokenChar(parts[0].key[0]);
  }

  /** However the parameters are written: they are read, or the repeated key is reported. */
  lemma {:induction false} ParseWritten(parts: seq<Part>, params: map<string, string>)
    requires parts != [] && AllWellWritten(parts)
    ensures ParseFrom(Written(parts), params)
      == if Fresh(parts, params) then Ok(Fill(params, parts)) else Err(DuplicateKeys)
    decreases |parts|
  {
    var p := parts[0];
    assert WellWritten(p);
    if |parts| == 1 {
      ScanWritten(p, []);
      AfterWritten(p, []);
      assert parts[1..] == [];
      hide ScanParam, AfterParam, PartThen, WellWritten;
    } else {
      var next := Written(parts[1..]);
      WrittenStarts(parts[1..]);
      ScanWritten(p, [','] + (p.lead + next));
      AfterWritten(p, next);
      ParseWritten(parts[1..], params[p.key := p.value]);
      hide ScanParam, AfterParam, PartThen, WellWritten, Fill;
      ParseStep(Written(parts), params, Param(p.key, p.value, p.gap + ([','] + (p.lead + next))), next);
      FillStep(params, parts);
    }
  }

  lemma ParseStep(s: string, params: map<string, string>, p: Param, rest: string)
    requires ScanParam(s) == Some(p) && AfterParam(p.rest) == More(rest)
    ensures ParseFrom(s, params) ==
      if p.key in params then Err(DuplicateKeys) else ParseFrom(rest, params[p.key := p.value])
  {
  }

  lemma FillStep(params: map<string, string>, parts: seq<Part>)
    requires parts != []
    ensures Fill(params, parts) == Fill(params[parts[0].key := parts[0].value], parts[1..])
  {
  }

  // ----- What is read was written so

  lemma {:induction false} SpacesAreBlank(s: string)
    ensures Blank(s[..SpaceLen(s)])
    decreases |s|
  {
    if s != [] && IsSpace(s[0]) {
      SpacesAreBlank(s[1..]);
      var blanks := s[..SpaceLen(s)];
      forall i | 0 <= i < |blanks| ensures IsSpace(blanks[i]) {
        if i > 0 { assert blanks[i] == s[1..][..SpaceLen(s[1..])][i - 1]; }
      }
    }
  }

  lemma Unstrip(s: string) returns (blanks: string)
    ensures Blank(blanks) && s == blanks + LStrip(s)
  {
    SpacesAreBlank(s);
    blanks := s[..SpaceLen(s)];
  }

  lemma ScannedKey(s: string)
    requires ScanKey(s).Some?
    ensures var n, k := TokenLen(s), ScanKey(s).value; var equals := LStrip(s[n..]);
      0 < n && k.text == s[..n] && equals != [] && equals[0] == '=' && k.rest == LStrip(equals[1..])
  {
    hide TokenLen, LStrip;
  }

  lemma WrittenKey(s: string) returns (before: string, after: string)
    requires ScanKey(s).Some?
    ensures var k := ScanKey(s).value;
      Token(k.text) && Blank(before) && Blank(after) && s == k.text + (before + (['='] + (after + k.rest)))
  {
    var n, k := TokenLen(s), ScanKey(s).value;
    ScannedKey(s);
    ScannedToken(s);
    hide ScanKey, LStrip, TokenLen, TokenText, Blank;
    var equals := LStrip(s[n..]);
    before := Unstrip(s[n..]);
    after := Unstrip(equals[1..]);
    Glued(s, n, before, equals, after, k.rest);
  }

  lemma Glued(s: string, n: nat, before: string, equals: string, after: string, rest: string)
    requires n <= |s| && s[n..] == before + equals && equals != [] && equals[0] == '=' && equals[1..] == after + rest
    ensures s == s[..n] + (before + (['='] + (after + rest)))
  {
    assert equals == ['='] + (after + rest);
    assert s == s[..n] + s[n..];
  }

  lemma AssembledPart(p: Part, rest: string, tail: string)
    requires p.gap == [] && rest == ValueThen(p, tail)
    ensures PartThen(p, tail) == p.key + (p.before + (['='] + (p.after + rest)))
  {
    assert p.gap + tail == tail;
    hide ValueThen;
  }

  lemma ScannedInTwo(s: string)
    requires ScanParam(s).Some?
    ensures ScanKey(s).Some? && ScanValue(ScanKey(s).value.rest).Some?
    ensures var k := ScanKey(s).value; var v := ScanValue(k.rest).value;
      ScanParam(s) == Some(Param(k.text, v.text, v.rest))
  {
    hide ScanKey, ScanValue;
  }

  /** The written form of one parameter that was scanned. */
  lemma ScannedPart(s: string) returns (p: Part, tail: string)
    requires ScanParam(s).Some?
    ensures WellWritten(p) && p.gap == [] && p.lead == [] && PartThen(p, tail) == s
    ensures ScanParam(s) == Some(Param(p.key, p.value, tail))
  {
    ScannedInTwo(s);
    ScannedParam(s);
    hide ScanParam, ScanKey, ScanValue, TokenText, Token, QuotedBody, TokenLen, Quoted, PartThen;
    var before, after := WrittenKey(s);
    var k, value := ScanKey(s).value, ScanValue(ScanKey(s).value.rest).value;
    var quoted := TokenLen(k.rest) == 0;
    WrittenValue(k.rest, quoted, value.text, value.rest);
    tail := value.rest;
    p := Part(k.text, before, after, value.text, quoted, [], []);
    AssembledPart(p, k.rest, tail);
    assert Blank([]);
  }

  lemma WrittenValue(s: string, quoted: bool, value: string, tail: string)
    requires ScanValue(s) == Some(Scanned(value, tail)) && (quoted <==> TokenLen(s) == 0)
    ensures s == if quoted then Quoted(value, tail) else value + tail
    ensures !quoted ==> Token(value)
  {
    ScannedToken(s);
    hide TokenLen, BodyLen;
    if quoted {
      var body := s[1..];
      var m := BodyLen(body).value;
      assert body == body[..m] + (['"'] + body[m + 1..]);
      assert s == ['"'] + body;
    } else {
      assert s == s[..TokenLen(s)] + s[TokenLen(s)..];
    }
  }

  lemma WrittenAfter(tail: string) returns (gap: string, lead: string)
    requires !AfterParam(tail).Malformed?
    ensures Blank(gap) && Blank(lead)
    ensures tail == match AfterParam(tail) case More(rest) => gap + ([','] + (lead + rest)) case _ => gap
  {
    gap := Unstrip(tail);
    lead := [];
    var next := LStrip(tail);
    if next == [] {
      assert gap + [] == gap;
    } else {
      lead := Unstrip(next[1..]);
      assert next == [','] + next[1..];
    }
  }

  lemma ParseSteps(s: string, params: map<string, string>)
    requires ParseFrom(s, params).Ok?
    ensures ScanParam(s).Some? && !AfterParam(ScanParam(s).value.rest).Malformed?
    ensures var p := ScanParam(s).value;
      AfterParam(p.rest).More? ==>
        |AfterParam(p.rest).rest| < |s| && ParseFrom(AfterParam(p.rest).rest, params[p.key := p.value]).Ok?
  {
    hide ScanParam, AfterParam;
  }

  lemma WithGap(p: Part, gap: string, lead: string, rest: string)
    requires WellWritten(p) && p.gap == [] && Blank(gap) && Blank(lead)
    ensures WellWritten(p.(gap := gap, lead := lead))
    ensures PartThen(p.(gap := gap, lead := lead), rest) == PartThen(p, gap + rest)
  {
    assert [] + (gap + rest) == gap + rest;
    hide TokenText, QuotedBody, Quoted;
  }

  lemma WrittenOne(part: Part)
    requires WellWritten(part)
    ensures AllWellWritten([part]) && Written([part]) == PartThen(part, [])
  {
    hide WellWritten, PartThen;
  }

  lemma WrittenMore(part: Part, more: seq<Part>)
    requires WellWritten(part) && AllWellWritten(more) && more != []
    ensures AllWellWritten([part] + more)
    ensures Written([part] + more) == PartThen(part, [','] + (part.lead + Written(more)))
  {
    hide WellWritten, PartThen;
    assert ([part] + more)[1..] == more;
  }

  lemma {:induction false} ParsedIsWritten(s: string, params: map<string, string>) returns (parts: seq<Part>)
    requires ParseFrom(s, params).Ok?
    ensures parts != [] && AllWellWritten(parts) && Written(parts) == s
    decreases |s|
  {
    ParseSteps(s, params);
    var p, tail := ScannedPart(s);
    var gap, lead := WrittenAfter(tail);
    hide ScanParam, AfterParam, ParseFrom, WellWritten, PartThen, Written, AllWellWritten, Blank;
    var part := p.(gap := gap, lead := lead);
    match AfterParam(tail)
    case End =>
      WithGap(p, gap, lead, []);
      assert gap + [] == tail;
      WrittenOne(part);
      parts := [part];
    case More(rest) =>
      WithGap(p, gap, lead, [','] + (lead + rest));
      var more := ParsedIsWritten(rest, params[p.key := p.value]);
      WrittenMore(part, more);
      parts := [part] + more;
  }

  /** A header is accepted exactly if it is written so, up to the old clients' prefix, with no key
      twice, and then each key has the value written for it; one that only repeats a key is
      reported as such. */
  lemma ParsesIff(raw: string)
    ensures ParseParams(raw).Ok? <==>
      exists parts :: parts != [] && AllWellWritten(parts) && Written(parts) == DeletePrefix(raw) && Fresh(parts, map[])
    ensures forall parts | parts != [] && AllWellWritten(parts) && Written(parts) == DeletePrefix(raw) ::
      ParseParams(raw) == if Fresh(parts, map[]) then Ok(Fill(map[], parts)) else Err(DuplicateKeys)
  {
    hide ParseFrom, Written, AllWellWritten, Fresh, Fill, DeletePrefix;
    if ParseParams(raw).Ok? {
      var parts := ParsedIsWritten(DeletePrefix(raw), map[]);
      ParseWritten(parts, map[]);
    }
    forall parts | parts != [] && AllWellWritten(parts) && Written(parts) == DeletePrefix(raw)
      ensures ParseParams(raw) == if Fresh(parts, map[]) then Ok(Fill(map[], parts)) else Err(DuplicateKeys)
    {
      ParseWritten(parts, map[]);
    }
  }
}
