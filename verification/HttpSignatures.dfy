/** Signing a request and rebuilding the signed string from what arrives
    (draft-cavage-http-signatures-12, section 2.3).  The RSA step and Base64 are one
    function from a string to the signature text. */
module HttpSignatures {
  import opened Options
  import opened Text
  import opened SignatureParser

  const REQUEST_TARGET := "(request-target)"

  type Header = (string, string)

  datatype Url = Url(path: string, query: Option<string>)

  /** A received request: `fullpath` includes the query string; `headers` is looked up by
      canonical name. */
  datatype Request = Request(verb: string, fullpath: string, path: string, headers: map<string, string>)

  datatype VerificationError = MalformedSignature | InvalidPseudoHeader | MissingPseudoParameter

  // ----- The signer

  function FullPath(url: Url): string {
    match url.query
    case None => url.path
    case Some(query) => url.path + ['?'] + query
  }

  function RequestTarget(verb: string, url: Url): string {
    verb + [' '] + FullPath(url)
  }

  /** `Hash#merge` with one entry: an existing key keeps its place. */
  function MergeOne(headers: seq<Header>, key: string, value: string): seq<Header>
    decreases |headers|
  {
    if headers == [] then [(key, value)]
    else if headers[0].0 == key then [(key, value)] + headers[1..]
    else [headers[0]] + MergeOne(headers[1..], key, value)
  }

  function Line(name: string, value: string): string {
    name + ": " + value
  }

  function SignedLines(headers: seq<Header>): seq<string>
    decreases |headers|
  {
    if headers == [] then [] else [Line(Downcase(headers[0].0), headers[0].1)] + SignedLines(headers[1..])
  }

  function Names(headers: seq<Header>): seq<string>
    decreases |headers|
  {
    if headers == [] then [] else [headers[0].0] + Names(headers[1..])
  }

  function WithTarget(headers: seq<Header>, verb: string, url: Url): seq<Header> {
    MergeOne(headers, REQUEST_TARGET, RequestTarget(verb, url))
  }

  function SignedString(headers: seq<Header>): string {
    Join(SignedLines(headers), "\n")
  }

  function Pair(key: string, value: string): string {
    key + "=\"" + value + "\""
  }

  /** The `Signature` header for a request, `rsa` being the signer's key. */
  function Sign(rsa: string -> string, keyId: string, headers: seq<Header>, verb: string, url: Url): string {
    var signedHeaders := WithTarget(headers, verb, url);
    var signature := rsa(SignedString(signedHeaders));
    Pair("keyId", keyId) + "," + Pair("algorithm", "rsa-sha256") + "," +
    Pair("headers", Downcase(Join(Names(signedHeaders), " "))) + "," + Pair("signature", signature)
  }

  // ----- The verifier

  function ParamOr(params: map<string, string>, key: string, default: string): string {
    if key in params then params[key] else default
  }

  function Algorithm(params: map<string, string>): string {
    ParamOr(params, "algorithm", "hs2019")
  }

  function SignedHeaders(params: map<string, string>): seq<string> {
    Words(Downcase(ParamOr(params, "headers", if Algorithm(params) == "hs2019" then "(created)" else "date")))
  }

  function CapitalizeAll(parts: seq<string>): (r: seq<string>)
    ensures |r| == |parts| && forall i | 0 <= i < |r| :: r[i] == Capitalize(parts[i])
    decreases |parts|
  {
    if parts == [] then [] else [Capitalize(parts[0])] + CapitalizeAll(parts[1..])
  }

  function ToHeaderName(name: string): string {
    Join(CapitalizeAll(Split(name, '-')), "-")
  }

  function HeaderValue(request: Request, name: string): string {
    if name in request.headers then request.headers[name] else ""
  }

  /** A pseudo-header taken from the signature's own parameters. */
  function PseudoLine(name: string, key: string, params: map<string, string>): Result<string, VerificationError> {
    if Algorithm(params) != "hs2019" then Err(InvalidPseudoHeader)
    else if Blank(ParamOr(params, key, "")) then Err(MissingPseudoParameter)
    else Ok(Line(name, params[key]))
  }

  /** What the verifier takes for the signed target; older signers leave out the query string. */
  function Target(request: Request, includeQuery: bool): string {
    Downcase(request.verb) + [' '] + if includeQuery then request.fullpath else request.path
  }

  function LineOf(name: string, params: map<string, string>, request: Request, includeQuery: bool):
    Result<string, VerificationError>
  {
    if name == REQUEST_TARGET then
      Ok(Line(REQUEST_TARGET, Target(request, includeQuery)))
    else if name == "(created)" then PseudoLine(name, "created", params)
    else if name == "(expires)" then PseudoLine(name, "expires", params)
    else Ok(Line(name, HeaderValue(request, ToHeaderName(name))))
  }

  function LinesOf(names: seq<string>, params: map<string, string>, request: Request, includeQuery: bool):
    Result<seq<string>, VerificationError>
    decreases |names|
  {
    if names == [] then Ok([]) else
    match LineOf(names[0], params, request, includeQuery)
    case Err(e) => Err(e)
    case Ok(line) =>
      match LinesOf(names[1..], params, request, includeQuery)
      case Err(e) => Err(e)
      case Ok(lines) => Ok([line] + lines)
  }

  function BuildSignedString(params: map<string, string>, request: Request, includeQuery: bool):
    Result<string, VerificationError>
  {
    match LinesOf(SignedHeaders(params), params, request, includeQuery)
    case Err(e) => Err(e)
    case Ok(lines) => Ok(Join(lines, "\n"))
  }

  /** `verified?`: with the query string first, then the old way without it. */
  function Verified(raw: string, request: Request, verify: (string, string) -> bool): Result<bool, VerificationError> {
    match ParseParams(raw)
    case Err(_) => Err(MalformedSignature)
    case Ok(params) =>
      var signature := ParamOr(params, "signature", "");
      match BuildSignedString(params, request, true)
      case Err(e) => Err(e)
      case Ok(whole) =>
        if verify(signature, whole) then Ok(true) else
        match BuildSignedString(params, request, false)
        case Err(e) => Err(e)
        case Ok(short) => Ok(verify(signature, short))
  }

  // ----- What is printed is read back

  predicate Unquoted(s: string) {
    forall i | 0 <= i < |s| :: s[i] != '"' && s[i] != '\\'
  }

  lemma {:induction false} UnquotedIsBody(s: string)
    requires Unquoted(s)
    ensures QuotedBody(s)
    decreases |s|
  {
    if s != [] { UnquotedIsBody(s[1..]); }
  }

  lemma {:induction false} JoinUnquoted(parts: seq<string>, separator: string)
    requires Unquoted(separator) && forall i | 0 <= i < |parts| :: Unquoted(parts[i])
    ensures Unquoted(Join(parts, separator))
    decreases |parts|
  {
    if |parts| > 1 { JoinUnquoted(parts[1..], separator); }
  }

  lemma {:induction false} NamesAt(headers: seq<Header>)
    ensures |Names(headers)| == |headers| && forall i | 0 <= i < |headers| :: Names(headers)[i] == headers[i].0
    decreases |headers|
  {
    if headers != [] { NamesAt(headers[1..]); }
  }

  /** Header names a signer can list: words without quotes or backslashes, and no other
      spelling of the request-target pseudo-header. */
  predicate Listable(name: string) {
    Word(name) && Unquoted(name) && (Downcase(name) == REQUEST_TARGET ==> name == REQUEST_TARGET)
  }

  predicate AllListable(headers: seq<Header>) {
    forall i | 0 <= i < |headers| :: Listable(headers[i].0)
  }

  function SignatureParams(keyId: string, headers: seq<Header>, signature: string): seq<(string, string)> {
    [("keyId", keyId), ("algorithm", "rsa-sha256"),
     ("headers", Downcase(Join(Names(headers), " "))), ("signature", signature)]
  }

  lemma PrintOne(key: string, value: string)
    ensures PrintParams([(key, value)]) == Pair(key, value)
  {
    assert key + (['='] + Quoted(value, [])) == Pair(key, value);
  }

  lemma PrintCons(key: string, value: string, rest: seq<(string, string)>)
    requires rest != []
    ensures PrintParams([(key, value)] + rest) == Pair(key, value) + "," + PrintParams(rest)
  {
    var list := [(key, value)] + rest;
    assert list[1..] == rest;
    var more := PrintParams(rest);
    hide PrintParams;
    assert key + (['='] + Quoted(value, [','] + more)) == Pair(key, value) + "," + more;
  }

  lemma PrintFour(a: (string, string), b: (string, string), c: (string, string), d: (string, string))
    ensures PrintParams([a, b, c, d])
      == Pair(a.0, a.1) + "," + Pair(b.0, b.1) + "," + Pair(c.0, c.1) + "," + Pair(d.0, d.1)
  {
    hide PrintParams, Pair;
    PrintOne(d.0, d.1);
    PrintCons(c.0, c.1, [d]);
    PrintCons(b.0, b.1, [c, d]);
    PrintCons(a.0, a.1, [b, c, d]);
    assert [c] + [d] == [c, d] && [b] + [c, d] == [b, c, d] && [a] + [b, c, d] == [a, b, c, d];
    var pa, pb, pc, pd := Pair(a.0, a.1), Pair(b.0, b.1), Pair(c.0, c.1), Pair(d.0, d.1);
    assert pa + "," + (pb + "," + (pc + "," + pd)) == pa + "," + pb + "," + pc + "," + pd;
  }

  lemma ParamKeysAreTokens()
    ensures Token("keyId") && Token("algorithm") && Token("headers") && Token("signature")
    ensures "keyId" != "algorithm" && "keyId" != "headers" && "keyId" != "signature"
    ensures "algorithm" != "headers" && "algorithm" != "signature" && "headers" != "signature"
  {
    assert "algorithm"[0] != "signature"[0];
  }

  lemma HeaderListUnquoted(headers: seq<Header>)
    requires AllListable(headers)
    ensures QuotedBody(Downcase(Join(Names(headers), " ")))
  {
    NamesAt(headers);
    JoinUnquoted(Names(headers), " ");
    UnquotedIsBody(Downcase(Join(Names(headers), " ")));
  }

  lemma FourPrintable(a: (string, string), b: (string, string), c: (string, string), d: (string, string))
    requires Token(a.0) && Token(b.0) && Token(c.0) && Token(d.0)
    requires QuotedBody(a.1) && QuotedBody(b.1) && QuotedBody(c.1) && QuotedBody(d.1)
    requires a.0 != b.0 && a.0 != c.0 && a.0 != d.0 && b.0 != c.0 && b.0 != d.0 && c.0 != d.0
    ensures Printable([a, b, c, d])
  {
    hide Token, QuotedBody;
  }

  lemma SignatureParamsPrintable(keyId: string, headers: seq<Header>, signature: string)
    requires QuotedBody(keyId) && QuotedBody(signature) && AllListable(headers)
    ensures Printable(SignatureParams(keyId, headers, signature))
  {
    HeaderListUnquoted(headers);
    UnquotedIsBody("rsa-sha256");
    hide QuotedBody, Token, Downcase, Join, Printable;
    ParamKeysAreTokens();
    FourPrintable(("keyId", keyId), ("algorithm", "rsa-sha256"),
                  ("headers", Downcase(Join(Names(headers), " "))), ("signature", signature));
  }

  /** Reading a signed request's header returns the four parameters that were printed. */
  lemma ParsedSignature(rsa: string -> string, keyId: string, headers: seq<Header>, verb: string, url: Url)
    requires AllListable(headers) && QuotedBody(keyId) && QuotedBody(rsa(SignedString(WithTarget(headers, verb, url))))
    ensures var signed := WithTarget(headers, verb, url);
      var list := SignatureParams(keyId, signed, rsa(SignedString(signed)));
      ParseParams(Sign(rsa, keyId, headers, verb, url)) == Ok(AsMap(list)) && Printable(list)
  {
    var signed := WithTarget(headers, verb, url);
    TargetListable();
    MergeListable(headers, REQUEST_TARGET, RequestTarget(verb, url));
    var list := SignatureParams(keyId, signed, rsa(SignedString(signed)));
    SignatureParamsPrintable(keyId, signed, rsa(SignedString(signed)));
    ParseUndoesPrint(list);
    PrintFour(list[0], list[1], list[2], list[3]);
  }

  // ----- The verifier rebuilds what was signed

  lemma TargetChars()
    ensures forall i | 0 <= i < |REQUEST_TARGET| :: var c := REQUEST_TARGET[i];
      !IsSpace(c) && c != '"' && c != '\\' && !('A' <= c <= 'Z')
  {
  }

  lemma TargetListable()
    ensures Listable(REQUEST_TARGET) && Downcase(REQUEST_TARGET) == REQUEST_TARGET
  {
    hide Downcase;
    TargetChars();
    NothingToDowncase(REQUEST_TARGET);
  }

  lemma {:induction false} MergeListable(headers: seq<Header>, key: string, value: string)
    requires AllListable(headers) && Listable(key)
    ensures AllListable(MergeOne(headers, key, value))
    decreases |headers|
  {
    hide Listable;
    if headers != [] && headers[0].0 != key {
      MergeListable(headers[1..], key, value);
    }
  }

  /** The request carries these lines: the values under their canonical names, and the target.
      Pseudo-headers stand for parameters of the signature, not for headers. */
  ghost predicate Carries(request: Request, headers: seq<Header>, includeQuery: bool) {
    forall i | 0 <= i < |headers| && !Pseudo(headers[i].0) ::
      headers[i].1 == if headers[i].0 == REQUEST_TARGET then Target(request, includeQuery)
                      else HeaderValue(request, ToHeaderName(Downcase(headers[i].0)))
  }

  /** Distinct header names, and their values, but for the target and pseudo-headers, in the request. */
  ghost predicate CarriesHeaders(request: Request, headers: seq<Header>) {
    && (forall i, j | 0 <= i < j < |headers| :: headers[i].0 != headers[j].0)
    && forall i | 0 <= i < |headers| && headers[i].0 != REQUEST_TARGET && !Pseudo(headers[i].0) ::
         headers[i].1 == HeaderValue(request, ToHeaderName(Downcase(headers[i].0)))
  }

  /** Merging the request's target into headers that are carried keeps them carried. */
  lemma {:induction false} MergeCarried(headers: seq<Header>, request: Request, includeQuery: bool)
    requires CarriesHeaders(request, headers)
    ensures Carries(request, MergeOne(headers, REQUEST_TARGET, Target(request, includeQuery)), includeQuery)
    decreases |headers|
  {
    hide ToHeaderName, Downcase, HeaderValue, Target;
    if headers != [] && headers[0].0 != REQUEST_TARGET {
      MergeCarried(headers[1..], request, includeQuery);
    }
  }

  /** Which names are listed does not depend on the value merged in. */
  lemma {:induction false} MergedNames(headers: seq<Header>, key: string, a: string, b: string)
    ensures Names(MergeOne(headers, key, a)) == Names(MergeOne(headers, key, b))
    decreases |headers|
  {
    if headers != [] && headers[0].0 != key {
      MergedNames(headers[1..], key, a, b);
    }
  }

  predicate Pseudo(name: string) {
    Downcase(name) == "(created)" || Downcase(name) == "(expires)"
  }

  predicate ListsPseudo(headers: seq<Header>) {
    exists i :: 0 <= i < |headers| && Pseudo(headers[i].0)
  }

  lemma {:induction false} LinesRebuilt(headers: seq<Header>, params: map<string, string>, request: Request,
                                        includeQuery: bool)
    requires AllListable(headers) && Carries(request, headers, includeQuery) && Algorithm(params) != "hs2019"
    ensures LinesOf(DowncaseAll(Names(headers)), params, request, includeQuery)
      == if ListsPseudo(headers) then Err(InvalidPseudoHeader) else Ok(SignedLines(headers))
    decreases |headers|
  {
    if headers != [] {
      var name := headers[0].0;
      var names := DowncaseAll(Names(headers));
      assert names[0] == Downcase(name) && names[1..] == DowncaseAll(Names(headers[1..]));
      LineRebuilt(headers[0], params, request, includeQuery);
      LinesRebuilt(headers[1..], params, request, includeQuery);
      assert ListsPseudo(headers) <==> Pseudo(name) || ListsPseudo(headers[1..]) by {
        if ListsPseudo(headers) && !Pseudo(name) {
          var i :| 0 <= i < |headers| && Pseudo(headers[i].0);
          assert headers[1..][i - 1] == headers[i];
        }
      }
    }
  }

  lemma LineRebuilt(header: Header, params: map<string, string>, request: Request, includeQuery: bool)
    requires Listable(header.0) && Carries(request, [header], includeQuery) && Algorithm(params) != "hs2019"
    ensures LineOf(Downcase(header.0), params, request, includeQuery)
      == if Pseudo(header.0) then Err(InvalidPseudoHeader) else Ok(Line(Downcase(header.0), header.1))
  {
    hide ToHeaderName, Downcase, Target;
    TargetListable();
    assert [header][0] == header;
  }

  lemma SignedHeadersRead(headers: seq<Header>, params: map<string, string>)
    requires AllListable(headers)
    requires "headers" in params && params["headers"] == Downcase(Join(Names(headers), " "))
    ensures SignedHeaders(params) == DowncaseAll(Names(headers))
  {
    var names := Names(headers);
    NamesAt(headers);
    var lowered := DowncaseAll(names);
    DowncaseJoin(names, " ");
    forall w | w in lowered ensures Word(w) {
      var i :| 0 <= i < |lowered| && lowered[i] == w;
      DowncaseWord(names[i]);
    }
    DowncaseTwice(Join(names, " "));
    WordsOfJoin(lowered);
  }

  lemma {:induction false} SamePseudo(a: seq<Header>, b: seq<Header>)
    requires Names(a) == Names(b)
    ensures ListsPseudo(a) <==> ListsPseudo(b)
  {
    NamesAt(a);
    NamesAt(b);
    hide Pseudo, Names;
    if ListsPseudo(a) {
      var i :| 0 <= i < |a| && Pseudo(a[i].0);
      assert a[i].0 == b[i].0;
    }
    if ListsPseudo(b) {
      var i :| 0 <= i < |b| && Pseudo(b[i].0);
      assert a[i].0 == b[i].0;
    }
  }

  /** From the header that `Sign` prints, whatever target was signed, the verifier rebuilds the
      string that signs the request's own target, unless a listed name is one of the
      pseudo-headers that need another algorithm; then it raises. */
  lemma VerifierRebuilds(rsa: string -> string, keyId: string, headers: seq<Header>, verb: string,
                         url: Url, request: Request, includeQuery: bool)
    requires AllListable(headers) && CarriesHeaders(request, headers)
    requires QuotedBody(keyId) && QuotedBody(rsa(SignedString(WithTarget(headers, verb, url))))
    ensures var signed := WithTarget(headers, verb, url);
      var parsed := ParseParams(Sign(rsa, keyId, headers, verb, url));
      && parsed.Ok?
      && parsed.value.Keys == {"keyId", "algorithm", "headers", "signature"}
      && parsed.value["keyId"] == keyId && parsed.value["signature"] == rsa(SignedString(signed))
      && BuildSignedString(parsed.value, request, includeQuery)
        == if ListsPseudo(signed) then Err(InvalidPseudoHeader)
           else Ok(SignedString(MergeOne(headers, REQUEST_TARGET, Target(request, includeQuery))))
  {
    var signed := WithTarget(headers, verb, url);
    var carried := MergeOne(headers, REQUEST_TARGET, Target(request, includeQuery));
    ParsedSignature(rsa, keyId, headers, verb, url);
    TargetListable();
    MergeListable(headers, REQUEST_TARGET, RequestTarget(verb, url));
    MergeListable(headers, REQUEST_TARGET, Target(request, includeQuery));
    MergeCarried(headers, request, includeQuery);
    MergedNames(headers, REQUEST_TARGET, RequestTarget(verb, url), Target(request, includeQuery));
    SamePseudo(signed, carried);
    var list := SignatureParams(keyId, signed, rsa(SignedString(signed)));
    var params := AsMap(list);
    FourKeys(list);
    SignedHeadersRead(signed, params);
    assert |"rsa-sha256"| == 10 && |"hs2019"| == 6;
    LinesRebuilt(carried, params, request, includeQuery);
  }

  /** On a request that carries what was signed the verifier rebuilds exactly the signed string. */
  lemma VerifierRebuildsSignedString(rsa: string -> string, keyId: string, headers: seq<Header>, verb: string,
                                     url: Url, request: Request)
    requires AllListable(headers) && CarriesHeaders(request, headers)
    requires Downcase(request.verb) == verb && request.fullpath == FullPath(url)
    requires QuotedBody(keyId) && QuotedBody(rsa(SignedString(WithTarget(headers, verb, url))))
    ensures var signed := WithTarget(headers, verb, url);
      var parsed := ParseParams(Sign(rsa, keyId, headers, verb, url));
      && parsed.Ok?
      && BuildSignedString(parsed.value, request, true)
        == if ListsPseudo(signed) then Err(InvalidPseudoHeader) else Ok(SignedString(signed))
  {
    hide ParseParams, BuildSignedString, Sign, ToHeaderName, AllListable, QuotedBody;
    VerifierRebuilds(rsa, keyId, headers, verb, url, request, true);
    assert RequestTarget(verb, url) == Target(request, true);
  }

  lemma FourKeys(list: seq<(string, string)>)
    requires |list| == 4 && forall i, j | 0 <= i < j < 4 :: list[i].0 != list[j].0
    ensures AsMap(list).Keys == {list[0].0, list[1].0, list[2].0, list[3].0}
    ensures forall i | 0 <= i < 4 :: AsMap(list)[list[i].0] == list[i].1
  {
    hide AsMap, Printable;
    AsMapKeys(list);
    forall i | 0 <= i < 4 ensures list[i].0 in AsMap(list) && AsMap(list)[list[i].0] == list[i].1 {
      AsMapValue(list, list[i]);
    }
  }

  /** What `verified?` answers for a signer's header on a request that carries the headers: an
      error for the pseudo-headers, and else whether the signature fits the request's target
      with the query string or without. */
  lemma VerifiedIs(rsa: string -> string, verify: (string, string) -> bool, keyId: string,
                   headers: seq<Header>, verb: string, url: Url, request: Request)
    requires AllListable(headers) && CarriesHeaders(request, headers)
    requires QuotedBody(keyId) && forall s :: QuotedBody(rsa(s))
    ensures var signed := WithTarget(headers, verb, url);
      var signature := rsa(SignedString(signed));
      Verified(Sign(rsa, keyId, headers, verb, url), request, verify)
        == if ListsPseudo(signed) then Err(InvalidPseudoHeader)
           else Ok(verify(signature, SignedString(MergeOne(headers, REQUEST_TARGET, Target(request, true)))) ||
                   verify(signature, SignedString(MergeOne(headers, REQUEST_TARGET, Target(request, false)))))
  {
    hide ParseParams, BuildSignedString, Sign, ToHeaderName, AllListable, QuotedBody;
    VerifierRebuilds(rsa, keyId, headers, verb, url, request, true);
    VerifierRebuilds(rsa, keyId, headers, verb, url, request, false);
  }

  /** A signer's request, signed with its query string or as older signers do without, is accepted
      by its own key's check exactly when it lists neither `(created)` nor `(expires)`. */
  lemma OwnSignatureVerifies(rsa: string -> string, verify: (string, string) -> bool, keyId: string,
                             headers: seq<Header>, verb: string, url: Url, request: Request)
    requires AllListable(headers) && CarriesHeaders(request, headers)
    requires RequestTarget(verb, url) == Target(request, true) || RequestTarget(verb, url) == Target(request, false)
    requires QuotedBody(keyId) && forall s :: QuotedBody(rsa(s)) && verify(rsa(s), s)
    ensures Verified(Sign(rsa, keyId, headers, verb, url), request, verify) == Ok(true)
      <==> !ListsPseudo(WithTarget(headers, verb, url))
  {
    hide ParseParams, Verified, Sign, ToHeaderName, AllListable, QuotedBody;
    VerifiedIs(rsa, verify, keyId, headers, verb, url, request);
  }

  lemma CancelAround(before: string, a: string, b: string, after: string)
    requires before + a + after == before + b + after
    ensures a == b
  {
    assert |a| == |b|;
    assert a == (before + a + after)[|before|..|before| + |a|];
    assert b == (before + b + after)[|before|..|before| + |b|];
  }

  /** The signed string tells the targets apart. */
  lemma {:induction false} SignedTargetsDiffer(headers: seq<Header>, a: string, b: string)
    requires SignedString(MergeOne(headers, REQUEST_TARGET, a)) == SignedString(MergeOne(headers, REQUEST_TARGET, b))
    ensures a == b
    decreases |headers|
  {
    hide Downcase;
    var before := Downcase(REQUEST_TARGET) + ": ";
    if headers == [] {
      LoneLine(a);
      LoneLine(b);
      CancelAround(before, a, b, []);
    } else if headers[0].0 == REQUEST_TARGET {
      var after := if |headers| == 1 then [] else "\n" + SignedString(headers[1..]);
      TargetLineFirst(headers[1..], a);
      TargetLineFirst(headers[1..], b);
      CancelAround(before, a, b, after);
    } else {
      var first := Line(Downcase(headers[0].0), headers[0].1) + "\n";
      var ra, rb := MergeOne(headers[1..], REQUEST_TARGET, a), MergeOne(headers[1..], REQUEST_TARGET, b);
      SignedCons(headers[0], ra);
      SignedCons(headers[0], rb);
      CancelAround(first, SignedString(ra), SignedString(rb), []);
      SignedTargetsDiffer(headers[1..], a, b);
    }
  }

  lemma SignedCons(header: Header, rest: seq<Header>)
    requires rest != []
    ensures SignedString([header] + rest) == Line(Downcase(header.0), header.1) + "\n" + SignedString(rest)
  {
    hide Downcase;
    assert ([header] + rest)[1..] == rest;
    var lines := SignedLines([header] + rest);
    assert lines[1..] == SignedLines(rest);
    assert SignedLines(rest) != [];
  }

  lemma TargetLineFirst(rest: seq<Header>, a: string)
    ensures SignedString([(REQUEST_TARGET, a)] + rest)
      == Downcase(REQUEST_TARGET) + ": " + a + if rest == [] then [] else "\n" + SignedString(rest)
  {
    hide Downcase, SignedString;
    if rest == [] {
      LoneLine(a);
      assert [(REQUEST_TARGET, a)] + rest == [(REQUEST_TARGET, a)];
    } else {
      SignedCons((REQUEST_TARGET, a), rest);
    }
  }

  lemma LoneLine(a: string)
    ensures SignedString([(REQUEST_TARGET, a)]) == Downcase(REQUEST_TARGET) + ": " + a
  {
    hide Downcase;
    assert SignedLines([(REQUEST_TARGET, a)]) == [Line(Downcase(REQUEST_TARGET), a)];
  }

  /** With a key that accepts a signature for the signed string only, a signer's header is accepted
      exactly if it lists neither pseudo-header and what it signed as target is the request's
      target, with the query string or without it. */
  lemma AcceptedIffTargetMatches(rsa: string -> string, verify: (string, string) -> bool, keyId: string,
                                 headers: seq<Header>, verb: string, url: Url, request: Request)
    requires AllListable(headers) && CarriesHeaders(request, headers)
    requires QuotedBody(keyId) && (forall s :: QuotedBody(rsa(s))) && forall s, t :: verify(rsa(s), t) <==> s == t
    ensures Verified(Sign(rsa, keyId, headers, verb, url), request, verify) == Ok(true) <==>
      !ListsPseudo(WithTarget(headers, verb, url)) &&
      (RequestTarget(verb, url) == Target(request, true) || RequestTarget(verb, url) == Target(request, false))
  {
    hide ParseParams, Verified, Sign, ToHeaderName, AllListable, QuotedBody, SignedString, Target, RequestTarget;
    VerifiedIs(rsa, verify, keyId, headers, verb, url, request);
    var signed := SignedString(WithTarget(headers, verb, url));
    forall iq: bool | signed == SignedString(MergeOne(headers, REQUEST_TARGET, Target(request, iq)))
      ensures RequestTarget(verb, url) == Target(request, iq)
    {
      SignedTargetsDiffer(headers, RequestTarget(verb, url), Target(request, iq));
    }
  }

  /** So whoever signs a creation time along with the host is turned away. */
  lemma CreationTimeIsRejected(rsa: string -> string, verify: (string, string) -> bool, keyId: string,
                               host: string, time: string, verb: string, url: Url, request: Request)
    requires QuotedBody(keyId) && forall s :: QuotedBody(rsa(s))
    requires request.headers == map["Host" := host]
    ensures var headers := [("Host", host), ("(created)", time)];
      && AllListable(headers) && CarriesHeaders(request, headers)
      && Verified(Sign(rsa, keyId, headers, verb, url), request, verify) == Err(InvalidPseudoHeader)
  {
    var headers := [("Host", host), ("(created)", time)];
    HostAndCreated();
    hide Verified, Sign, ToHeaderName, Downcase, Listable, Pseudo;
    assert CarriesHeaders(request, headers);
    MergedLists(headers, RequestTarget(verb, url), 1);
    VerifiedIs(rsa, verify, keyId, headers, verb, url, request);
  }

  lemma HostAndCreated()
    ensures Listable("Host") && Listable("(created)") && Pseudo("(created)") && "Host" != "(created)"
    ensures ToHeaderName(Downcase("Host")) == "Host"
  {
    hide Downcase;
    NothingToDowncase("(created)");
    assert |"Host"| == 4 && |"(created)"| == 9 && |REQUEST_TARGET| == 16;
    assert Listable("Host") && Listable("(created)");
    HostIsCanonical();
  }

  lemma HostIsCanonical()
    ensures ToHeaderName(Downcase("Host")) == "Host"
  {
    hide ToHeaderName, Downcase;
    NothingToDowncase("ost");
    assert "Host"[1..] == "ost" && "Host"[0] == 'H';
    assert CanonicalPart("Host");
    hide Capitalize;
    CanonicalNameFoundAgain(["Host"]);
    assert Join(["Host"], "-") == "Host";
  }

  /** A pseudo-header is still listed after the target was merged in. */
  lemma {:induction false} MergedLists(headers: seq<Header>, value: string, i: nat)
    requires i < |headers| && Pseudo(headers[i].0)
    ensures ListsPseudo(MergeOne(headers, REQUEST_TARGET, value))
    decreases |headers|
  {
    TargetIsNotPseudo();
    hide Pseudo;
    var merged := MergeOne(headers, REQUEST_TARGET, value);
    if i == 0 {
      assert merged[0] == headers[0];
    } else if headers[0].0 == REQUEST_TARGET {
      assert merged[i] == headers[i];
    } else {
      MergedLists(headers[1..], value, i - 1);
      var j :| 0 <= j < |merged[1..]| && Pseudo(merged[1..][j].0);
      assert merged[j + 1] == merged[1..][j];
    }
  }

  lemma TargetIsNotPseudo()
    ensures !Pseudo(REQUEST_TARGET)
  {
    hide Downcase;
    assert |REQUEST_TARGET| == 16 && |"(created)"| == 9 && |"(expires)"| == 9;
  }

  // ----- Signatures that carry their own times

  /** The parameter that a pseudo-header stands for. */
  function PseudoKey(name: string): string {
    if Downcase(name) == "(created)" then "created" else "expires"
  }

  predicate HasParam(params: map<string, string>, key: string) {
    key in params && !Blank(params[key])
  }

  /** Every pseudo-header that is listed has its parameter as its value. */
  ghost predicate CarriesTimes(params: map<string, string>, headers: seq<Header>) {
    forall i | 0 <= i < |headers| && Pseudo(headers[i].0) && HasParam(params, PseudoKey(headers[i].0)) ::
      headers[i].1 == params[PseudoKey(headers[i].0)]
  }

  ghost predicate HasTimes(params: map<string, string>, headers: seq<Header>) {
    forall i | 0 <= i < |headers| && Pseudo(headers[i].0) :: HasParam(params, PseudoKey(headers[i].0))
  }

  /** Under `hs2019` the lines are the signed ones, `(created)` and `(expires)` each with its own
      parameter, or it raises because a listed one has none. */
  lemma {:induction false} TimedLinesRebuilt(headers: seq<Header>, params: map<string, string>, request: Request,
                                             includeQuery: bool)
    requires AllListable(headers) && Carries(request, headers, includeQuery) && CarriesTimes(params, headers)
    requires Algorithm(params) == "hs2019"
    ensures LinesOf(DowncaseAll(Names(headers)), params, request, includeQuery)
      == if HasTimes(params, headers) then Ok(SignedLines(headers)) else Err(MissingPseudoParameter)
    decreases |headers|
  {
    if headers != [] {
      var name, names := headers[0].0, DowncaseAll(Names(headers));
      assert names[0] == Downcase(name) && names[1..] == DowncaseAll(Names(headers[1..]));
      TimedLineRebuilt(headers[0], params, request, includeQuery);
      TimedLinesRebuilt(headers[1..], params, request, includeQuery);
      HasTimesStep(params, headers);
    }
  }

  lemma HasTimesStep(params: map<string, string>, headers: seq<Header>)
    requires headers != []
    ensures HasTimes(params, headers) <==>
      (Pseudo(headers[0].0) ==> HasParam(params, PseudoKey(headers[0].0))) && HasTimes(params, headers[1..])
  {
    hide Pseudo, HasParam, PseudoKey;
    if HasTimes(params, headers[1..]) {
      forall i | 0 < i < |headers| && Pseudo(headers[i].0) ensures HasParam(params, PseudoKey(headers[i].0)) {
        assert headers[i] == headers[1..][i - 1];
      }
    }
  }

  lemma TimedLineRebuilt(header: Header, params: map<string, string>, request: Request, includeQuery: bool)
    requires Listable(header.0) && Carries(request, [header], includeQuery) && CarriesTimes(params, [header])
    requires Algorithm(params) == "hs2019"
    ensures LineOf(Downcase(header.0), params, request, includeQuery)
      == if Pseudo(header.0) && !HasParam(params, PseudoKey(header.0)) then Err(MissingPseudoParameter)
         else Ok(Line(Downcase(header.0), header.1))
  {
    hide ToHeaderName, Downcase, Target;
    TargetListable();
    assert [header][0] == header;
    assert |"(created)"| == 9 && |REQUEST_TARGET| == 16 && |"(expires)"| == 9;
  }

  /** The signed headers with this value for the target, if it is among them. */
  function Retarget(headers: seq<Header>, value: string): (r: seq<Header>)
    ensures |r| == |headers|
    ensures forall i | 0 <= i < |r| ::
      r[i] == if headers[i].0 == REQUEST_TARGET then (REQUEST_TARGET, value) else headers[i]
    decreases |headers|
  {
    if headers == [] then []
    else
      [if headers[0].0 == REQUEST_TARGET then (REQUEST_TARGET, value) else headers[0]] + Retarget(headers[1..], value)
  }

  /** A request whose header is read as these parameters: it raises if a listed pseudo-header has
      none, and is else accepted exactly if the signature fits the signed lines, with the request's
      target as it is or without its query string. */
  lemma TimedSignatureVerifies(raw: string, params: map<string, string>, verify: (string, string) -> bool,
                               headers: seq<Header>, request: Request)
    requires ParseParams(raw) == Ok(params) && Algorithm(params) == "hs2019"
    requires AllListable(headers) && CarriesHeaders(request, headers) && CarriesTimes(params, headers)
    requires "headers" in params && params["headers"] == Downcase(Join(Names(headers), " "))
    ensures var signature := ParamOr(params, "signature", "");
      Verified(raw, request, verify) ==
        if HasTimes(params, headers) then
          Ok(verify(signature, SignedString(Retarget(headers, Target(request, true)))) ||
             verify(signature, SignedString(Retarget(headers, Target(request, false)))))
        else Err(MissingPseudoParameter)
  {
    TimedStringRebuilt(params, headers, request, true);
    TimedStringRebuilt(params, headers, request, false);
    hide ParseParams, BuildSignedString, SignedString, Target, HasTimes, CarriesTimes;
  }

  lemma TimedStringRebuilt(params: map<string, string>, headers: seq<Header>, request: Request, includeQuery: bool)
    requires Algorithm(params) == "hs2019"
    requires AllListable(headers) && CarriesHeaders(request, headers) && CarriesTimes(params, headers)
    requires "headers" in params && params["headers"] == Downcase(Join(Names(headers), " "))
    ensures BuildSignedString(params, request, includeQuery) ==
      if HasTimes(params, headers) then
        Ok(SignedString(Retarget(headers, Target(request, includeQuery))))
      else Err(MissingPseudoParameter)
  {
    var carried := Retarget(headers, Target(request, includeQuery));
    SignedHeadersRead(headers, params);
    RetargetedCarried(params, headers, request, includeQuery);
    hide SignedHeaders, Retarget, AllListable, CarriesHeaders, CarriesTimes, HasTimes, Carries, Names, LinesOf, Target;
    TimedLinesRebuilt(carried, params, request, includeQuery);
  }

  lemma RetargetedCarried(params: map<string, string>, headers: seq<Header>, request: Request, includeQuery: bool)
    requires AllListable(headers) && CarriesHeaders(request, headers) && CarriesTimes(params, headers)
    ensures var carried := Retarget(headers, Target(request, includeQuery));
      && Names(carried) == Names(headers) && AllListable(carried) && Carries(request, carried, includeQuery)
      && CarriesTimes(params, carried) && (HasTimes(params, carried) <==> HasTimes(params, headers))
  {
    var carried := Retarget(headers, Target(request, includeQuery));
    TargetIsNotPseudo();
    NamesAt(headers);
    NamesAt(carried);
    hide ToHeaderName, Downcase, Listable, Pseudo, HasParam, PseudoKey, Target, Names, HeaderValue, Retarget;
    assert forall i | 0 <= i < |headers| :: carried[i].0 == headers[i].0;
    assert Names(carried) == Names(headers);
  }

  /** So a signature with its own times that its key made for this request is accepted. */
  lemma TimedSignatureAccepted(list: seq<(string, string)>, verify: (string, string) -> bool,
                               headers: seq<Header>, request: Request)
    requires list != [] && Printable(list) && Algorithm(AsMap(list)) == "hs2019"
    requires AllListable(headers) && CarriesHeaders(request, headers)
    requires CarriesTimes(AsMap(list), headers) && HasTimes(AsMap(list), headers)
    requires "headers" in AsMap(list) && AsMap(list)["headers"] == Downcase(Join(Names(headers), " "))
    requires verify(ParamOr(AsMap(list), "signature", ""), SignedString(Retarget(headers, Target(request, true))))
    ensures Verified(PrintParams(list), request, verify) == Ok(true)
  {
    ParseUndoesPrint(list);
    hide Verified, PrintParams, Printable, CarriesHeaders, CarriesTimes, HasTimes, AllListable, Names;
    TimedSignatureVerifies(PrintParams(list), AsMap(list), verify, headers, request);
  }

  /** What the list of signed headers is taken to be if the signature does not say. */
  lemma DefaultHeaders(params: map<string, string>)
    requires "headers" !in params
    ensures SignedHeaders(params) == if Algorithm(params) == "hs2019" then ["(created)"] else ["date"]
  {
    hide Words, Downcase;
    NothingToDowncase("(created)");
    NothingToDowncase("date");
    WordsStep("(created)", "");
    WordsStep("date", "");
  }

  /** Without an algorithm it is `hs2019`; a header that cannot be read raises. */
  lemma DefaultAlgorithm(params: map<string, string>, raw: string, request: Request,
                         verify: (string, string) -> bool)
    ensures "algorithm" !in params ==> Algorithm(params) == "hs2019"
    ensures ParseParams(raw).Err? ==> Verified(raw, request, verify) == Err(MalformedSignature)
  {
  }

  /** A listed header that the request does not have is signed as an empty value. */
  lemma MissingHeaderIsEmpty(name: string, params: map<string, string>, request: Request, includeQuery: bool)
    requires name != REQUEST_TARGET && name != "(created)" && name != "(expires)"
    requires ToHeaderName(name) !in request.headers
    ensures LineOf(name, params, request, includeQuery) == Ok(name + ": ")
  {
    hide ToHeaderName;
    assert name + ": " + "" == name + ": ";
  }

  /** The query string follows the path after the first question mark. */
  lemma FullPathParts(url: Url)
    requires '?' !in url.path
    ensures var n := LenTo(FullPath(url), '?');
      && FullPath(url)[..n] == url.path
      && url.query == if n == |FullPath(url)| then None else Some(FullPath(url)[n + 1..])
  {
    match url.query
    case None =>
      LenToOf(url.path, [], '?');
      assert url.path + [] == url.path;
    case Some(query) =>
      LenToOf(url.path, ['?'] + query, '?');
      assert url.path + (['?'] + query) == FullPath(url);
  }

  // ----- Canonical names

  /** A name made of capitalised parts is found again from its lower-case spelling. */
  predicate CanonicalPart(p: string) {
    p != [] && '-' !in p && Capitalize(p) == p
  }

  lemma CanonicalNameFoundAgain(parts: seq<string>)
    requires parts != [] && forall i | 0 <= i < |parts| :: CanonicalPart(parts[i])
    ensures ToHeaderName(Downcase(Join(parts, "-"))) == Join(parts, "-")
  {
    hide Downcase, Capitalize, Split, Join;
    var lowered := DowncaseAll(parts);
    NothingToDowncase("-");
    DowncaseJoin(parts, "-");
    forall i | 0 <= i < |parts| ensures '-' !in lowered[i] && lowered[i] != [] && Capitalize(lowered[i]) == parts[i] {
      NoDashLowered(parts[i]);
      CapitalizeLowered(parts[i]);
    }
    SplitOfJoin(lowered, '-');
    assert CapitalizeAll(lowered) == parts;
  }

  lemma NoDashLowered(s: string)
    requires '-' !in s
    ensures '-' !in Downcase(s)
  {
    var r := Downcase(s);
    forall i | 0 <= i < |r| ensures r[i] != '-' { assert s[i] in s; }
  }
}
