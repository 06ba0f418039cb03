/** The `Signature` header: `key="value"` parameters separated by commas
    (draft-cavage-http-signatures-12, section 4; tokens as in section 3.2.6 of RFC 7230). */
module SignatureParser {
  import opened Options
  import opened Text

  datatype ParseError = ParsingError | DuplicateKeys

  /** Text that a pattern matched, and what follows it. */
  datatype Scanned = Scanned(text: string, rest: string)

  datatype Param = Param(key: string, value: string, rest: string)

  /** What follows a parameter: nothing, a comma and more, or something else. */
  datatype Continuation = End | More(rest: string) | Malformed

  // ----- The scanner's patterns, matched at the start of a string

  predicate TokenChar(c: char) {
    '0' <= c <= '9' || 'a' <= c <= 'z' || 'A' <= c <= 'Z' ||
    c == '!' || '#' <= c <= '\'' || c == '*' || c == '+' || c == '-' || c == '.' ||
    c == '^' || c == '_' || c == '`' || c == '|' || c == '~'
  }

  function TokenLen(s: string): (n: nat)
    ensures n <= |s|
  {
    if s == [] || !TokenChar(s[0]) then 0 else 1 + TokenLen(s[1..])
  }

  /** The length of a quoted string's body, `s` starting after the opening quote: up to the
      first quote that no backslash escapes.  A backslash escapes anything but a newline. */
  function BodyLen(s: string): (n: Option<nat>)
    ensures n.Some? ==> n.value < |s| && s[n.value] == '"'
  {
    if s == [] then None
    else if s[0] == '"' then Some(0)
    else if s[0] == '\\' then
      if |s| < 2 || s[1] == '\n' then None else
      match BodyLen(s[2..])
      case None => None
      case Some(n) => Some(n + 2)
    else
      match BodyLen(s[1..])
      case None => None
      case Some(n) => Some(n + 1)
  }

  /** A token, and an equals sign with optional whitespace around it. */
  function ScanKey(s: string): (k: Option<Scanned>)
    ensures k.Some? ==> |k.value.rest| < |s|
  {
    var n := TokenLen(s);
    if n == 0 then None else
    var equals := LStrip(s[n..]);
    if equals == [] || equals[0] != '=' then None
    else Some(Scanned(s[..n], LStrip(equals[1..])))
  }

  /** A token or a quoted string, without its quotes. */
  function ScanValue(s: string): (v: Option<Scanned>)
    ensures v.Some? ==> |v.value.rest| <= |s|
  {
    var n := TokenLen(s);
    if n > 0 then Some(Scanned(s[..n], s[n..]))
    else if s == [] || s[0] != '"' then None
    else
      var body := s[1..];
      match BodyLen(body)
      case None => None
      case Some(m) => Some(Scanned(body[..m], body[m + 1..]))
  }

  function ScanParam(s: string): (p: Option<Param>)
    ensures p.Some? ==> |p.value.rest| < |s|
  {
    match ScanKey(s)
    case None => None
    case Some(key) =>
      match ScanValue(key.rest)
      case None => None
      case Some(value) => Some(Param(key.text, value.text, value.rest))
  }

  function AfterParam(s: string): (c: Continuation)
    ensures c.More? ==> |c.rest| < |s|
  {
    var next := LStrip(s);
    if next == [] then End
    else if next[0] == ',' then More(LStrip(next[1..]))
    else Malformed
  }

  /** The parameters from here to the end, added to those already read. */
  function ParseFrom(s: string, params: map<string, string>): Result<map<string, string>, ParseError>
    decreases |s|
  {
    match ScanParam(s)
    case None => Err(ParsingError)
    case Some(p) =>
      if p.key in params then Err(DuplicateKeys) else
      match AfterParam(p.rest)
      case End => Ok(params[p.key := p.value])
      case Malformed => Err(ParsingError)
      case More(rest) => ParseFrom(rest, params[p.key := p.value])
  }

  const PREFIX := "Signature "

  function DeletePrefix(raw: string): string {
    if PREFIX <= raw then raw[|PREFIX|..] else raw
  }

  function ParseParams(raw: string): Result<map<string, string>, ParseError> {
    ParseFrom(DeletePrefix(raw), map[])
  }

  /** The scanner loop; `rest` is what the scanner has not passed yet. */
  method Parse(raw: string) returns (r: Result<map<string, string>, ParseError>)
    ensures r == ParseParams(raw)
  {
    var rest := DeletePrefix(raw);
    var params: map<string, string> := map[];
    var scanned := ScanParam(rest);
    while scanned.Some?
      invariant scanned == ScanParam(rest)
      invariant ParseFrom(rest, params) == ParseParams(raw)
      decreases |rest|
    {
      var p := scanned.value;
      if p.key in params { return Err(DuplicateKeys); }
      params := params[p.key := p.value];
      match AfterParam(p.rest) {
        case End => return Ok(params);
        case Malformed => return Err(ParsingError);
        case More(more) => rest := more;
      }
      scanned := ScanParam(rest);
    }
    return Err(ParsingError);
  }

  // ----- Printing

  /** A value between quotes, followed by `rest`. */
  function Quoted(value: string, rest: string): string {
    ['"'] + (value + (['"'] + rest))
  }

  /** `key="value"` pairs joined by commas. */
  function PrintParams(list: seq<(string, string)>): string
    decreases |list|
  {
    if list == [] then []
    else list[0].0 + (['='] + Quoted(list[0].1, if |list| == 1 then [] else [','] + PrintParams(list[1..])))
  }

  predicate TokenText(s: string) {
    forall i | 0 <= i < |s| :: TokenChar(s[i])
  }

  predicate Token(s: string) {
    s != [] && TokenText(s)
  }

  /** What may stand between the quotes: no bare quote, and every backslash escapes the
      character after it. */
  predicate QuotedBody(v: string) {
    v == [] ||
    (if v[0] == '\\' then |v| >= 2 && v[1] != '\n' && QuotedBody(v[2..])
     else v[0] != '"' && QuotedBody(v[1..]))
  }

  ghost predicate Printable(list: seq<(string, string)>) {
    && (forall i | 0 <= i < |list| :: Token(list[i].0) && QuotedBody(list[i].1))
    && (forall i, j | 0 <= i < j < |list| :: list[i].0 != list[j].0)
  }

  function AsMap(list: seq<(string, string)>): map<string, string>
    decreases |list|
  {
    if list == [] then map[] else map[list[0].0 := list[0].1] + AsMap(list[1..])
  }

  lemma {:induction false} TokenLenOf(token: string, rest: string)
    requires TokenText(token)
    requires rest == [] || !TokenChar(rest[0])
    ensures TokenLen(token + rest) == |token|
    decreases |token|
  {
    if token == [] {
      assert token + rest == rest;
    } else {
      assert (token + rest)[1..] == token[1..] + rest;
      TokenLenOf(token[1..], rest);
    }
  }

  lemma {:induction false} BodyLenOf(body: string, rest: string)
    requires QuotedBody(body)
    ensures BodyLen(body + (['"'] + rest)) == Some(|body|)
    decreases |body|
  {
    var s := body + (['"'] + rest);
    if body == [] {
      assert s == ['"'] + rest;
    } else if body[0] == '\\' {
      assert s[2..] == body[2..] + (['"'] + rest);
      BodyLenOf(body[2..], rest);
    } else {
      assert s[1..] == body[1..] + (['"'] + rest);
      BodyLenOf(body[1..], rest);
    }
  }

  lemma NoSpace(s: string)
    requires s == [] || !IsSpace(s[0])
    ensures LStrip(s) == s
  {
  }

  lemma ScanPrintedKey(key: string, tail: string)
    requires Token(key) && tail != [] && !IsSpace(tail[0])
    ensures ScanKey(key + (['='] + tail)) == Some(Scanned(key, tail))
  {
    var equals := ['='] + tail;
    var s := key + equals;
    TokenLenOf(key, equals);
    assert s[|key|..] == equals && s[..|key|] == key;
    NoSpace(equals);
    assert equals[1..] == tail;
    NoSpace(tail);
  }

  lemma ScanPrintedValue(value: string, rest: string)
    requires QuotedBody(value)
    ensures ScanValue(Quoted(value, rest)) == Some(Scanned(value, rest))
  {
    var tail := value + (['"'] + rest);
    var s := ['"'] + tail;
    BodyLenOf(value, rest);
    assert s == Quoted(value, rest) && s[0] == '"';
    assert TokenLen(s) == 0;
    assert s[1..] == tail;
    assert tail[..|value|] == value && tail[|value| + 1..] == rest;
  }

  lemma ScanPrinted(key: string, value: string, rest: string)
    requires Token(key) && QuotedBody(value)
    ensures ScanParam(key + (['='] + Quoted(value, rest))) == Some(Param(key, value, rest))
  {
    ScanPrintedKey(key, Quoted(value, rest));
    ScanPrintedValue(value, rest);
  }

  lemma InsertFirst(params: map<string, string>, key: string, value: string, more: map<string, string>)
    requires key !in more
    ensures params[key := value] + more == params + (map[key := value] + more)
  {
  }

  lemma ParseLast(s: string, params: map<string, string>, p: Param)
    requires ScanParam(s) == Some(p) && p.key !in params && p.rest == []
    ensures ParseFrom(s, params) == Ok(params[p.key := p.value])
  {
  }

  lemma ParseMore(s: string, params: map<string, string>, p: Param, rest: string)
    requires ScanParam(s) == Some(p) && p.key !in params && AfterParam(p.rest) == More(rest)
    ensures ParseFrom(s, params) == ParseFrom(rest, params[p.key := p.value])
  {
  }

  lemma AfterComma(rest: string)
    requires rest == [] || !IsSpace(rest[0])
    ensures AfterParam([','] + rest) == More(rest)
  {
    NoSpace([','] + rest);
    assert ([','] + rest)[1..] == rest;
    NoSpace(rest);
  }

  /** The first printed parameter is read, and the rest is left as it was printed. */
  lemma ParseFirstPrinted(list: seq<(string, string)>, params: map<string, string>)
    requires list != [] && Printable(list) && list[0].0 !in params
    ensures ParseFrom(PrintParams(list), params) ==
      if |list| == 1 then Ok(params[list[0].0 := list[0].1])
      else ParseFrom(PrintParams(list[1..]), params[list[0].0 := list[0].1])
  {
    hide ScanParam, AfterParam, ParseFrom;
    var key, value := list[0].0, list[0].1;
    var rest := if |list| == 1 then [] else [','] + PrintParams(list[1..]);
    ScanPrinted(key, value, rest);
    if |list| == 1 {
      ParseLast(PrintParams(list), params, Param(key, value, rest));
    } else {
      PrintStartsWithToken(list[1..]);
      AfterComma(PrintParams(list[1..]));
      ParseMore(PrintParams(list), params, Param(key, value, rest), PrintParams(list[1..]));
    }
  }

  lemma {:induction false} ParsePrinted(list: seq<(string, string)>, params: map<string, string>)
    requires list != [] && Printable(list)
    requires forall i | 0 <= i < |list| :: list[i].0 !in params
    ensures ParseFrom(PrintParams(list), params) == Ok(params + AsMap(list))
    decreases |list|
  {
    hide ParseFrom;
    var params' := params[list[0].0 := list[0].1];
    ParseFirstPrinted(list, params);
    assert params' + AsMap(list[1..]) == params + AsMap(list) by {
      KeysDiffer(list);
      InsertFirst(params, list[0].0, list[0].1, AsMap(list[1..]));
    }
    if |list| == 1 {
      assert params' + AsMap(list[1..]) == params';
    } else {
      ParsePrinted(list[1..], params');
    }
  }

  lemma {:induction false} AsMapKeys(list: seq<(string, string)>)
    ensures forall k :: k in AsMap(list) <==> exists p :: p in list && p.0 == k
    decreases |list|
  {
    if list != [] {
      AsMapKeys(list[1..]);
      forall k ensures k in AsMap(list) <==> exists p :: p in list && p.0 == k {
        if k == list[0].0 {
          assert list[0] in list;
        } else if k in AsMap(list[1..]) {
          var p :| p in list[1..] && p.0 == k;
          assert p in list;
        } else {
          assert forall p | p in list :: p == list[0] || p in list[1..];
        }
      }
    }
  }

  lemma KeysDiffer(list: seq<(string, string)>)
    requires list != [] && Printable(list)
    ensures list[0].0 !in AsMap(list[1..])
  {
    AsMapKeys(list[1..]);
  }

  lemma PrintStartsWithToken(list: seq<(string, string)>)
    requires list != [] && Printable(list)
    ensures PrintParams(list) != [] && TokenChar(PrintParams(list)[0])
  {
    assert PrintParams(list)[0] == list[0].0[0];
  }

  /** The prefix of old clients cannot be mistaken for a parameter. */
  lemma PrintHasNoPrefix(list: seq<(string, string)>)
    requires list != [] && Printable(list)
    ensures !(PREFIX <= PrintParams(list))
  {
    var key := list[0].0;
    var s := PrintParams(list);
    assert s[..|key|] == key && s[|key|] == '=';
    if |key| < |PREFIX| {
      assert PREFIX[|key|] != '=';
    } else {
      assert TokenChar(key[9]) && PREFIX[9] == ' ' && s[9] == key[9];
    }
  }

  lemma PrefixDeleted(s: string)
    ensures DeletePrefix(PREFIX + s) == s
  {
    var raw := PREFIX + s;
    assert raw[..|PREFIX|] == PREFIX && raw[|PREFIX|..] == s;
  }

  /** Any list of parameters with distinct token names and well-formed quoted values is
      read back from its printed form. */
  lemma ParseUndoesPrint(list: seq<(string, string)>)
    requires list != [] && Printable(list)
    ensures ParseParams(PrintParams(list)) == Ok(AsMap(list))
  {
    hide ParseFrom;
    PrintHasNoPrefix(list);
    ParsePrinted(list, map[]);
    assert map[] + AsMap(list) == AsMap(list);
  }

  /** The prefix of old clients makes no difference. */
  lemma PrefixIsIgnored(list: seq<(string, string)>)
    requires list != [] && Printable(list)
    ensures ParseParams(PREFIX + PrintParams(list)) == ParseParams(PrintParams(list))
  {
    PrintHasNoPrefix(list);
    PrefixDeleted(PrintParams(list));
  }

  // ----- What the parser can answer

  ghost predicate WellFormedParams(params: map<string, string>) {
    forall k | k in params :: Token(k) && QuotedBody(params[k])
  }

  lemma {:induction false} ScannedToken(s: string)
    ensures TokenText(s[..TokenLen(s)])
    decreases |s|
  {
    if s != [] && TokenChar(s[0]) {
      ScannedToken(s[1..]);
      assert s[..TokenLen(s)] == [s[0]] + s[1..][..TokenLen(s[1..])];
    }
  }

  lemma {:induction false} TokenIsQuotedBody(s: string)
    requires TokenText(s)
    ensures QuotedBody(s)
    decreases |s|
  {
    if s != [] {
      TokenIsQuotedBody(s[1..]);
    }
  }

  lemma {:induction false} ScannedBody(s: string)
    requires BodyLen(s).Some?
    ensures QuotedBody(s[..BodyLen(s).value])
    decreases |s|
  {
    if s[0] == '\\' {
      ScannedBody(s[2..]);
      assert s[..BodyLen(s).value][2..] == s[2..][..BodyLen(s[2..]).value];
    } else if s[0] != '"' {
      ScannedBody(s[1..]);
      assert s[..BodyLen(s).value][1..] == s[1..][..BodyLen(s[1..]).value];
    }
  }

  lemma ScannedValue(s: string)
    requires ScanValue(s).Some?
    ensures QuotedBody(ScanValue(s).value.text)
  {
    if TokenLen(s) > 0 {
      ScannedToken(s);
      TokenIsQuotedBody(s[..TokenLen(s)]);
    } else {
      ScannedBody(s[1..]);
    }
  }

  lemma ScannedParam(s: string)
    requires ScanParam(s).Some?
    ensures Token(ScanParam(s).value.key) && QuotedBody(ScanParam(s).value.value)
  {
    ScannedToken(s);
    ScannedValue(ScanKey(s).value.rest);
  }

  lemma {:induction false} ParseFromWellFormed(s: string, params: map<string, string>)
    requires WellFormedParams(params) && ParseFrom(s, params).Ok?
    ensures ParseFrom(s, params).value != map[] && WellFormedParams(ParseFrom(s, params).value)
    decreases |s|
  {
    hide ScanParam, AfterParam, QuotedBody;
    ScannedParam(s);
    var p := ScanParam(s).value;
    var params' := params[p.key := p.value];
    assert p.key in params' && WellFormedParams(params');
    match AfterParam(p.rest)
    case End =>
    case More(rest) => ParseFromWellFormed(rest, params');
  }

  lemma {:induction false} AsMapValue(list: seq<(string, string)>, p: (string, string))
    requires p in list && forall i, j | 0 <= i < j < |list| :: list[i].0 != list[j].0
    ensures p.0 in AsMap(list) && AsMap(list)[p.0] == p.1
    decreases |list|
  {
    if p != list[0] {
      AsMapValue(list[1..], p);
    } else {
      AsMapKeys(list[1..]);
    }
  }

  lemma WellFormedListIsPrintable(list: seq<(string, string)>)
    requires WellFormedParams(AsMap(list)) && forall i, j | 0 <= i < j < |list| :: list[i].0 != list[j].0
    ensures Printable(list)
  {
    hide QuotedBody, AsMap;
    forall i | 0 <= i < |list| ensures Token(list[i].0) && QuotedBody(list[i].1) {
      AsMapValue(list, list[i]);
    }
  }

  /** Whatever header the parser accepts, printing its answer in any order and reading that
      again gives the same answer: the parser's answers are exactly the printable ones. */
  lemma ReprintedAnswerParses(raw: string, list: seq<(string, string)>)
    requires ParseParams(raw).Ok? && ParseParams(raw).value == AsMap(list)
    requires forall i, j | 0 <= i < j < |list| :: list[i].0 != list[j].0
    ensures ParseParams(PrintParams(list)) == ParseParams(raw)
  {
    hide ParseFrom, DeletePrefix, PrintParams, QuotedBody;
    ParseFromWellFormed(DeletePrefix(raw), map[]);
    WellFormedListIsPrintable(list);
    assert list != [];
    ParseUndoesPrint(list);
  }
}
