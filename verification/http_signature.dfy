/** HTTP Signatures (draft-cavage-http-signatures): building the signing string, printing and
    scanning the Signature header, signing and verifying requests. */
module HttpSignature {
  import opened Texts

  type Bytes = seq<nat>
  type Headers = map<Text, Text>

  datatype Url = Url(host: Text, target: Text)

  /** What the code calls but does not define. `parseUrl` gives the host, and the path with its
      query; `digest` is the whole Digest header value of a body. */
  datatype Platform = Platform(
    lower: Text -> Text,
    parseUrl: Text -> Option<Url>,
    digest: Text -> Text,
    sign: Text -> Bytes,
    verify: (Text, Bytes) -> bool,
    toBase64: Bytes -> Text,
    fromBase64: Text -> Bytes)

  const LF: CodeUnit := 10
  const SPACE: CodeUnit := 32
  const QUOTE: CodeUnit := 34
  const COMMA: CodeUnit := 44
  const COLON: CodeUnit := 58
  const EQUALS: CodeUnit := 61
  const REQUEST_TARGET: Text := Ascii("(request-target)")
  const HOST: Text := Ascii("host")
  const DATE: Text := Ascii("date")
  const DIGEST: Text := Ascii("digest")
  const SIGNATURE: Text := Ascii("signature")
  const KEY_ID: Text := Ascii("keyId")
  const ALGORITHM: Text := Ascii("algorithm")
  const HEADERS: Text := Ascii("headers")
  const RSA_SHA256: Text := Ascii("rsa-sha256")

  // ---------------------------------------------------------------- the signing string

  /** What is signed under a name: the request line, or a header's value. */
  function Covered(p: Platform, verb: Text, url: Text, headers: Headers, name: Text): Option<Text> {
    if name == REQUEST_TARGET then
      match p.parseUrl(url)
      case None => None
      case Some(u) => Some(p.lower(verb) + [SPACE] + u.target)
    else if name in headers then Some(headers[name])
    else None
  }

  function Line(name: Text, value: Text): Text {
    name + [COLON, SPACE] + value
  }

  function CoveredAll(p: Platform, verb: Text, url: Text, headers: Headers, names: seq<Text>): Option<seq<Text>> {
    if names == [] then Some([])
    else
      var first, others := Covered(p, verb, url, headers, names[0]), CoveredAll(p, verb, url, headers, names[1..]);
      if first.None? || others.None? then None else Some([first.value] + others.value)
  }

  function SigningLines(names: seq<Text>, values: seq<Text>): (lines: seq<Text>)
    requires |names| == |values|
    ensures |lines| == |names| && forall i :: 0 <= i < |lines| ==> lines[i] == Line(names[i], values[i])
  {
    seq(|names|, i requires 0 <= i < |names| => Line(names[i], values[i]))
  }

  lemma {:induction false} CoveredAllIs(p: Platform, verb: Text, url: Text, headers: Headers, names: seq<Text>)
    ensures var values := CoveredAll(p, verb, url, headers, names);
            && (values.Some? <==> forall i :: 0 <= i < |names| ==> Covered(p, verb, url, headers, names[i]).Some?)
            && (values.Some? ==> |values.value| == |names|)
            && (values.Some? ==> forall i :: 0 <= i < |names| ==>
                  Covered(p, verb, url, headers, names[i]) == Some(values.value[i]))
  {
    if names != [] {
      CoveredAllIs(p, verb, url, headers, names[1..]);
      assert forall i :: 0 < i < |names| ==> names[i] == names[1..][i - 1];
    }
  }

  /** `buildSigningString`, where nothing stands for an exception. */
  function BuildSigningString(p: Platform, verb: Text, url: Text, headers: Headers, names: seq<Text>): Option<Text> {
    CoveredAllIs(p, verb, url, headers, names);
    var values := CoveredAll(p, verb, url, headers, names);
    if values.None? then None else Some(Join(SigningLines(names, values.value), [LF]))
  }

  predicate NameOk(name: Text) {
    Free(name, LF) && Free(name, COLON)
  }

  lemma LineInjective(name: Text, value: Text, name': Text, value': Text)
    requires NameOk(name) && NameOk(name') && Line(name, value) == Line(name', value')
    ensures name == name' && value == value'
  {
    assert Line(name, value) == name + [COLON] + ([SPACE] + value);
    assert Line(name', value') == name' + [COLON] + ([SPACE] + value');
    FieldInjective(name, [SPACE] + value, name', [SPACE] + value', COLON);
    assert ([SPACE] + value)[1..] == value && ([SPACE] + value')[1..] == value';
  }

  lemma LinesFree(names: seq<Text>, values: seq<Text>)
    requires |names| == |values|
    requires forall i :: 0 <= i < |names| ==> NameOk(names[i]) && Free(values[i], LF)
    ensures forall i :: 0 <= i < |names| ==>
              Free(SigningLines(names, values)[i], LF) && SigningLines(names, values)[i] != []
  {
  }

  /** A signing string over newline-free values determines the signed names and values. */
  lemma SigningStringInjective(names: seq<Text>, values: seq<Text>, names': seq<Text>, values': seq<Text>)
    requires |names| == |values| && |names'| == |values'|
    requires forall i :: 0 <= i < |names| ==> NameOk(names[i]) && Free(values[i], LF)
    requires forall i :: 0 <= i < |names'| ==> NameOk(names'[i]) && Free(values'[i], LF)
    requires Join(SigningLines(names, values), [LF]) == Join(SigningLines(names', values'), [LF])
    ensures names == names' && values == values'
  {
    var lines, lines' := SigningLines(names, values), SigningLines(names', values');
    LinesFree(names, values);
    LinesFree(names', values');
    JoinInjective(lines, lines');
    forall i | 0 <= i < |names| ensures names[i] == names'[i] && values[i] == values'[i] {
      assert lines[i] == lines'[i];
      LineInjective(names[i], values[i], names'[i], values'[i]);
    }
  }

  lemma JoinInjective(lines: seq<Text>, lines': seq<Text>)
    requires forall i :: 0 <= i < |lines| ==> Free(lines[i], LF) && lines[i] != []
    requires forall i :: 0 <= i < |lines'| ==> Free(lines'[i], LF) && lines'[i] != []
    requires Join(lines, [LF]) == Join(lines', [LF])
    ensures lines == lines'
  {
    if lines != [] && lines' != [] {
      SplitJoin(lines, LF);
      SplitJoin(lines', LF);
    }
  }

  /** Names without a colon, and what they cover without a line break. */
  ghost predicate Plain(p: Platform, verb: Text, url: Text, headers: Headers, names: seq<Text>) {
    forall i :: 0 <= i < |names| ==>
      NameOk(names[i]) &&
      var value := Covered(p, verb, url, headers, names[i]);
      value.Some? ==> Free(value.value, LF)
  }

  /** Two requests with the same signing string agree on every signed header, and on the request
      line if that is signed: no signed part can change under a signature. */
  lemma SigningStringBinds(p: Platform, m: Text, u: Text, h: Headers, names: seq<Text>, m': Text, u': Text,
        h': Headers, names': seq<Text>)
    requires BuildSigningString(p, m, u, h, names).Some?
    requires BuildSigningString(p, m, u, h, names) == BuildSigningString(p, m', u', h', names')
    requires Plain(p, m, u, h, names) && Plain(p, m', u', h', names')
    ensures names == names'
    ensures forall name :: name in names ==> Covered(p, m, u, h, name) == Covered(p, m', u', h', name)
  {
    CoveredAllIs(p, m, u, h, names);
    CoveredAllIs(p, m', u', h', names');
    var values, values' := CoveredAll(p, m, u, h, names).value, CoveredAll(p, m', u', h', names').value;
    SigningStringInjective(names, values, names', values');
    forall name | name in names ensures Covered(p, m, u, h, name) == Covered(p, m', u', h', name) {
      var i :| 0 <= i < |names| && names[i] == name;
      assert values[i] == values'[i];
    }
  }

  /** Nor can the method or the path, as methods have no spaces. */
  lemma RequestLineBinds(p: Platform, m: Text, u: Text, m': Text, u': Text, h: Headers, h': Headers)
    requires p.parseUrl(u).Some? && p.parseUrl(u').Some?
    requires Free(p.lower(m), SPACE) && Free(p.lower(m'), SPACE)
    requires Covered(p, m, u, h, REQUEST_TARGET) == Covered(p, m', u', h', REQUEST_TARGET)
    ensures p.lower(m) == p.lower(m') && p.parseUrl(u).value.target == p.parseUrl(u').value.target
  {
    var a, b, x, y := p.lower(m), p.lower(m'), p.parseUrl(u).value.target, p.parseUrl(u').value.target;
    FieldInjective(a, x, b, y, SPACE);
  }

  // ---------------------------------------------------------------- scanning the header

  predicate IsWordUnit(c: CodeUnit) {
    48 <= c <= 57 || 65 <= c <= 90 || c == 95 || 97 <= c <= 122
  }

  function WordLength(t: Text): (n: nat)
    ensures n <= |t|
  {
    if t == [] || !IsWordUnit(t[0]) then 0 else 1 + WordLength(t[1..])
  }

  function FindQuote(t: Text): (k: Option<nat>)
    ensures k.Some? ==> k.value < |t|
  {
    if t == [] then None
    else if t[0] == QUOTE then Some(0)
    else
      var k := FindQuote(t[1..]);
      if k.None? then None else Some(k.value + 1)
  }

  datatype Match = Match(name: Text, value: Text, rest: Text)

  /** The pattern `(\w+)="([^"]*)"` right here. */
  function MatchHere(t: Text): (m: Option<Match>)
    ensures m.Some? ==> |m.value.rest| < |t|
  {
    var n := WordLength(t);
    if n == 0 || n + 2 > |t| || t[n] != EQUALS || t[n + 1] != QUOTE then None
    else
      var k := FindQuote(t[n + 2..]);
      if k.None? then None else Some(Match(t[..n], t[n + 2..][..k.value], t[n + 2..][k.value + 1..]))
  }

  /** Its first match. */
  function FindMatch(t: Text): (m: Option<Match>)
    ensures m.Some? ==> |m.value.rest| < |t|
    decreases |t|
  {
    if t == [] then None else if MatchHere(t).Some? then MatchHere(t) else FindMatch(t[1..])
  }

  /** All of them; the last value given for a name counts. */
  function Params(t: Text): map<Text, Text>
    decreases |t|
  {
    var m := FindMatch(t);
    if m.None? then map[] else map[m.value.name := m.value.value] + Params(m.value.rest)
  }

  datatype Parsed = Parsed(keyId: Text, algorithm: Text, signedHeaderNames: seq<Text>, signature: Text)

  predicate Given(params: map<Text, Text>, name: Text) {
    name in params && params[name] != []
  }

  function Accepted(params: map<Text, Text>): Option<Parsed> {
    if !Given(params, KEY_ID) || !Given(params, SIGNATURE) || !Given(params, HEADERS) then None
    else Some(Parsed(params[KEY_ID], if ALGORITHM in params then params[ALGORITHM] else RSA_SHA256,
                     Split(params[HEADERS], SPACE), params[SIGNATURE]))
  }

  /** The parameters so far, and those still to come, are those of the whole header. */
  ghost predicate Scanned(params: map<Text, Text>, rest: Text, header: Text) {
    params + Params(rest) == Params(header)
  }

  lemma ScanStep(params: map<Text, Text>, rest: Text, header: Text)
    requires Scanned(params, rest, header) && FindMatch(rest).Some?
    ensures var m := FindMatch(rest).value; Scanned(params[m.name := m.value], m.rest, header)
  {
    var m := FindMatch(rest).value;
    MapRegroup(params, m.name, m.value, Params(m.rest));
  }

  lemma MapRegroup(a: map<Text, Text>, name: Text, value: Text, b: map<Text, Text>)
    ensures a + (map[name := value] + b) == a[name := value] + b
  {
  }

  /** `parseSignatureHeader`, where nothing stands for the exception. */
  method ParseSignatureHeader(header: Text) returns (parsed: Option<Parsed>)
    ensures parsed == Accepted(Params(header))
    ensures parsed.Some? <==>
              forall name :: name in {Ascii("keyId"), Ascii("headers"), Ascii("signature")} ==>
                name in Params(header) && Params(header)[name] != []
    ensures parsed.Some? ==>
              && parsed.value.keyId == Params(header)[Ascii("keyId")]
              && parsed.value.signature == Params(header)[Ascii("signature")]
              && parsed.value.algorithm == (if Ascii("algorithm") in Params(header)
                                            then Params(header)[Ascii("algorithm")] else Ascii("rsa-sha256"))
              && parsed.value.signedHeaderNames == Split(Params(header)[Ascii("headers")], SPACE)
  {
    var params: map<Text, Text> := map[];
    var rest := header;
    var found := FindMatch(rest);
    assert Scanned(params, rest, header) by {
      assert params + Params(header) == Params(header);
    }
    while found.Some?
      invariant found == FindMatch(rest) && Scanned(params, rest, header)
      decreases |rest|
    {
      ScanStep(params, rest, header);
      params := params[found.value.name := found.value.value];
      rest := found.value.rest;
      found := FindMatch(rest);
    }
    assert params + map[] == params;
    parsed := Accepted(params);
  }

  const KEY_ID_OPENS: Text := KEY_ID + [EQUALS, QUOTE]

  /** `extractKeyId` on a string. */
  function ExtractKeyId(header: Text): Option<Text> {
    if header == [] then None
    else if KEY_ID_OPENS <= header && FindQuote(header[|KEY_ID_OPENS|..]).Some? then
      Some(header[|KEY_ID_OPENS|..][..FindQuote(header[|KEY_ID_OPENS|..]).value])
    else ExtractKeyId(header[1..])
  }

  // ---------------------------------------------------------------- printing the header

  function Printed(name: Text, value: Text): Text {
    name + ([EQUALS, QUOTE] + (value + [QUOTE]))
  }

  function SignatureHeader(keyId: Text, names: seq<Text>, signature: Text): Text {
    Printed(KEY_ID, keyId) + ([COMMA] + (Printed(ALGORITHM, RSA_SHA256) + ([COMMA] +
      (Printed(HEADERS, Join(names, [SPACE])) + ([COMMA] + Printed(SIGNATURE, signature))))))
  }

  predicate IsWord(name: Text) {
    name != [] && forall i :: 0 <= i < |name| ==> IsWordUnit(name[i])
  }

  lemma {:induction false} WordIs(name: Text, rest: Text)
    requires (forall i :: 0 <= i < |name| ==> IsWordUnit(name[i])) && (rest == [] || !IsWordUnit(rest[0]))
    ensures WordLength(name + rest) == |name|
  {
    if name == [] {
      assert name + rest == rest;
    } else {
      assert (name + rest)[1..] == name[1..] + rest;
      WordIs(name[1..], rest);
    }
  }

  lemma {:induction false} QuoteIs(value: Text, rest: Text)
    requires Free(value, QUOTE)
    ensures FindQuote(value + ([QUOTE] + rest)) == Some(|value|)
  {
    var t := value + ([QUOTE] + rest);
    if value == [] {
      assert t == [QUOTE] + rest;
    } else {
      assert t[1..] == value[1..] + ([QUOTE] + rest);
      QuoteIs(value[1..], rest);
    }
  }

  lemma PrintedMatches(name: Text, value: Text, rest: Text)
    requires IsWord(name) && Free(value, QUOTE)
    ensures FindMatch(Printed(name, value) + rest) == Some(Match(name, value, rest))
  {
    var tail := value + ([QUOTE] + rest);
    var t := name + ([EQUALS, QUOTE] + tail);
    assert Printed(name, value) + rest == t;
    WordIs(name, [EQUALS, QUOTE] + tail);
    assert t[..|name|] == name && t[|name| + 2..] == tail;
    QuoteIs(value, rest);
    assert tail[..|value|] == value && tail[|value| + 1..] == rest;
    assert MatchHere(t) == Some(Match(name, value, rest));
  }

  lemma AfterComma(t: Text)
    ensures FindMatch([COMMA] + t) == FindMatch(t)
    ensures Params([COMMA] + t) == Params(t)
  {
    var s := [COMMA] + t;
    assert WordLength(s) == 0 && s[1..] == t;
  }

  lemma ParamsPrinted(name: Text, value: Text, rest: Text)
    requires IsWord(name) && Free(value, QUOTE)
    ensures Params(Printed(name, value) + ([COMMA] + rest)) == map[name := value] + Params(rest)
    ensures Params(Printed(name, value)) == map[name := value]
  {
    PrintedMatches(name, value, [COMMA] + rest);
    AfterComma(rest);
    PrintedMatches(name, value, []);
    assert Printed(name, value) + [] == Printed(name, value);
    var nothing: Text := [];
    assert Params(nothing) == map[];
    assert map[name := value] + map[] == map[name := value];
  }

  lemma ParamNames()
    ensures IsWord(KEY_ID) && IsWord(ALGORITHM) && IsWord(HEADERS) && IsWord(SIGNATURE)
    ensures Free(RSA_SHA256, QUOTE)
    ensures KEY_ID != ALGORITHM && KEY_ID != HEADERS && KEY_ID != SIGNATURE
    ensures ALGORITHM != HEADERS && ALGORITHM != SIGNATURE && HEADERS != SIGNATURE
  {
    assert |KEY_ID| == 5 && |HEADERS| == 7 && |ALGORITHM| == 9 && |SIGNATURE| == 9;
    assert ALGORITHM[0] == 'a' as int && SIGNATURE[0] == 's' as int;
  }

  /** Scanning a printed header gives back what was printed. */
  lemma HeaderRoundTrip(keyId: Text, names: seq<Text>, signature: Text)
    requires Free(keyId, QUOTE) && Free(Join(names, [SPACE]), QUOTE) && Free(signature, QUOTE)
    ensures Params(SignatureHeader(keyId, names, signature))
         == map[KEY_ID := keyId, ALGORITHM := RSA_SHA256, HEADERS := Join(names, [SPACE]), SIGNATURE := signature]
  {
    var joined := Join(names, [SPACE]);
    var fourth := Printed(SIGNATURE, signature);
    var third := Printed(HEADERS, joined) + ([COMMA] + fourth);
    var second := Printed(ALGORITHM, RSA_SHA256) + ([COMMA] + third);
    ParamNames();
    ParamsPrinted(SIGNATURE, signature, []);
    ParamsPrinted(HEADERS, joined, fourth);
    ParamsPrinted(ALGORITHM, RSA_SHA256, third);
    ParamsPrinted(KEY_ID, keyId, second);
    FourParams(keyId, joined, signature);
  }

  lemma FourParams(keyId: Text, joined: Text, signature: Text)
    ensures map[KEY_ID := keyId]
            + (map[ALGORITHM := RSA_SHA256] + (map[HEADERS := joined] + map[SIGNATURE := signature]))
         == map[KEY_ID := keyId, ALGORITHM := RSA_SHA256, HEADERS := joined, SIGNATURE := signature]
  {
    ParamNames();
  }

  /** The quick extractor agrees with the signer's key id exactly when that has no quote. */
  lemma KeyIdExtracted(keyId: Text, names: seq<Text>, signature: Text)
    ensures ExtractKeyId(SignatureHeader(keyId, names, signature)) == Some(keyId) <==> Free(keyId, QUOTE)
  {
    var more := [COMMA] + (Printed(ALGORITHM, RSA_SHA256) + ([COMMA] +
      (Printed(HEADERS, Join(names, [SPACE])) + ([COMMA] + Printed(SIGNATURE, signature)))));
    KeyIdOpens(keyId, more);
    FirstQuote(keyId, more);
  }

  lemma KeyIdOpens(keyId: Text, more: Text)
    ensures var header, tail := Printed(KEY_ID, keyId) + more, keyId + ([QUOTE] + more);
            FindQuote(tail).Some? ==> ExtractKeyId(header) == Some(tail[..FindQuote(tail).value])
  {
    var header, tail := Printed(KEY_ID, keyId) + more, keyId + ([QUOTE] + more);
    assert header == KEY_ID_OPENS + tail;
    assert header[|KEY_ID_OPENS|..] == tail;
  }

  lemma {:induction false} FirstQuote(value: Text, rest: Text)
    ensures var k := FindQuote(value + ([QUOTE] + rest));
            k.Some? && (k.value == |value| <==> Free(value, QUOTE)) &&
            ((value + ([QUOTE] + rest))[..k.value] == value <==> Free(value, QUOTE))
  {
    var t := value + ([QUOTE] + rest);
    if value == [] {
      assert t == [QUOTE] + rest;
    } else {
      assert t[1..] == value[1..] + ([QUOTE] + rest);
      FirstQuote(value[1..], rest);
      var k := FindQuote(t).value;
      assert t[..|value|] == value;
      assert Free(value, QUOTE) <==> value[0] != QUOTE && Free(value[1..], QUOTE);
      assert t[..k] == value ==> k == |value|;
    }
  }

  // ---------------------------------------------------------------- signing

  datatype SignResult = Signed(headers: Headers) | MissingArgument | InvalidUrl

  /** Set a header the caller has not decided. */
  function Default(headers: Headers, name: Text, value: Text): Headers {
    if name in headers then headers else headers[name := value]
  }

  /** The headers to sign: host and date, and a digest if there is a body. */
  function Completed(p: Platform, url: Url, headers: Headers, body: Option<Text>, now: Text): Headers {
    var dated := Default(Default(headers, HOST, url.host), DATE, now);
    if body.Some? then Default(dated, DIGEST, p.digest(body.value)) else dated
  }

  /** The names that have something to sign. */
  function Usable(headers: Headers, names: seq<Text>): seq<Text> {
    if names == [] then []
    else (if names[0] == REQUEST_TARGET || names[0] in headers then [names[0]] else []) + Usable(headers, names[1..])
  }

  lemma {:induction false} UsableElements(headers: Headers, names: seq<Text>)
    ensures forall i :: 0 <= i < |Usable(headers, names)| ==>
              Usable(headers, names)[i] in names
              && (Usable(headers, names)[i] == REQUEST_TARGET || Usable(headers, names)[i] in headers)
  {
    if names != [] {
      UsableElements(headers, names[1..]);
      assert names == [names[0]] + names[1..];
    }
  }

  lemma UsableIsCovered(p: Platform, verb: Text, url: Text, headers: Headers, names: seq<Text>)
    requires p.parseUrl(url).Some?
    ensures BuildSigningString(p, verb, url, headers, Usable(headers, names)).Some?
  {
    UsableElements(headers, names);
    CoveredAllIs(p, verb, url, headers, Usable(headers, names));
  }

  /** `signRequest`; `now` is the current date as a header value. */
  method SignRequest(p: Platform, verb: Text, url: Text, headers: Headers, body: Option<Text>, keyId: Text,
                     signedHeaderNames: seq<Text>, now: Text)
    returns (result: SignResult)
    ensures result == SignedRequest(p, verb, url, headers, body, keyId, signedHeaderNames, now)
    ensures result.MissingArgument? <==> verb == [] || url == [] || keyId == []
    ensures result.InvalidUrl? <==> verb != [] && url != [] && keyId != [] && p.parseUrl(url).None?
  {
    if verb == [] || url == [] || keyId == [] {
      return MissingArgument;
    }
    var u := p.parseUrl(url);
    if u.None? {
      return InvalidUrl;
    }
    var outHeaders := headers;
    if HOST !in outHeaders {
      outHeaders := outHeaders[HOST := u.value.host];
    }
    if DATE !in outHeaders {
      outHeaders := outHeaders[DATE := now];
    }
    if body.Some? && DIGEST !in outHeaders {
      outHeaders := outHeaders[DIGEST := p.digest(body.value)];
    }
    var names := Usable(outHeaders, signedHeaderNames);
    UsableIsCovered(p, verb, url, outHeaders, signedHeaderNames);
    var signature := p.sign(BuildSigningString(p, verb, url, outHeaders, names).value);
    outHeaders := outHeaders[SIGNATURE := SignatureHeader(keyId, names, p.toBase64(signature))];
    result := Signed(outHeaders);
  }

  function SignedRequest(p: Platform, verb: Text, url: Text, headers: Headers, body: Option<Text>, keyId: Text,
                         signedHeaderNames: seq<Text>, now: Text): SignResult
  {
    if verb == [] || url == [] || keyId == [] then MissingArgument
    else if p.parseUrl(url).None? then InvalidUrl
    else
      var complete := Completed(p, p.parseUrl(url).value, headers, body, now);
      var names := Usable(complete, signedHeaderNames);
      UsableIsCovered(p, verb, url, complete, signedHeaderNames);
      var signature := p.sign(BuildSigningString(p, verb, url, complete, names).value);
      Signed(complete[SIGNATURE := SignatureHeader(keyId, names, p.toBase64(signature))])
  }

  // ---------------------------------------------------------------- verifying

  /** The digest that came along, if it counts, is the body's. */
  predicate DigestAgrees(p: Platform, headers: Headers, body: Option<Text>) {
    DIGEST in headers && headers[DIGEST] != [] && body.Some? ==> headers[DIGEST] == p.digest(body.value)
  }

  predicate Verified(p: Platform, verb: Text, url: Text, headers: Headers, body: Option<Text>) {
    && SIGNATURE in headers && headers[SIGNATURE] != []
    && var parsed := Accepted(Params(headers[SIGNATURE]));
    && parsed.Some? && DigestAgrees(p, headers, body)
    && var signingString := BuildSigningString(p, verb, url, headers, parsed.value.signedHeaderNames);
    && signingString.Some? && p.verify(signingString.value, p.fromBase64(parsed.value.signature))
  }

  /** `verifyRequest`. */
  method VerifyRequest(p: Platform, verb: Text, url: Text, headers: Headers, body: Option<Text>) returns (ok: bool)
    ensures ok == Verified(p, verb, url, headers, body)
  {
    if SIGNATURE !in headers || headers[SIGNATURE] == [] {
      return false;
    }
    var parsed := ParseSignatureHeader(headers[SIGNATURE]);
    if parsed.None? {
      return false;
    }
    if DIGEST in headers && headers[DIGEST] != [] && body.Some? {
      if headers[DIGEST] != p.digest(body.value) {
        return false;
      }
    }
    var signingString := BuildSigningString(p, verb, url, headers, parsed.value.signedHeaderNames);
    if signingString.None? {
      return false;
    }
    ok := p.verify(signingString.value, p.fromBase64(parsed.value.signature));
  }

  // ---------------------------------------------------------------- the round trip

  /** The one fact needed of the key pair, and that base64 is a codec without quotes. */
  ghost predicate Sound(p: Platform) {
    && (forall m :: p.verify(m, p.sign(m)))
    && (forall b :: p.fromBase64(p.toBase64(b)) == b && Free(p.toBase64(b), QUOTE))
    && (forall m :: p.toBase64(p.sign(m)) != [])
  }

  /** Header names as they occur on the wire: no quotes, no spaces, and not the signature itself. */
  predicate Signable(names: seq<Text>) {
    forall i :: 0 <= i < |names| ==> Free(names[i], QUOTE) && Free(names[i], SPACE) && names[i] != SIGNATURE
  }

  lemma {:induction false} JoinFree(names: seq<Text>, c: CodeUnit)
    requires c != SPACE && forall i :: 0 <= i < |names| ==> Free(names[i], c)
    ensures Free(Join(names, [SPACE]), c)
  {
    if |names| > 1 {
      JoinFree(names[1..], c);
    }
  }

  /** Adding the signature changes nothing that was signed. */
  lemma {:induction false} SignatureIsNotCovered(p: Platform, verb: Text, url: Text, headers: Headers,
        value: Text, names: seq<Text>)
    requires forall i :: 0 <= i < |names| ==> names[i] != SIGNATURE
    ensures CoveredAll(p, verb, url, headers[SIGNATURE := value], names) == CoveredAll(p, verb, url, headers, names)
  {
    if names != [] {
      assert forall i :: 0 <= i < |names[1..]| ==> names[1..][i] == names[i + 1];
      SignatureIsNotCovered(p, verb, url, headers, value, names[1..]);
    }
  }

  lemma {:induction false} UsableSignable(headers: Headers, names: seq<Text>)
    requires Signable(names)
    ensures Signable(Usable(headers, names))
  {
    UsableElements(headers, names);
    forall i | 0 <= i < |Usable(headers, names)|
      ensures var name := Usable(headers, names)[i]; Free(name, QUOTE) && Free(name, SPACE) && name != SIGNATURE
    {
      var j :| 0 <= j < |names| && names[j] == Usable(headers, names)[i];
    }
  }

  /** What a signed request carries, read back. */
  lemma SignedHeaderParses(p: Platform, keyId: Text, names: seq<Text>, signature: Bytes)
    requires Sound(p) && keyId != [] && Free(keyId, QUOTE) && Signable(names) && p.toBase64(signature) != []
    ensures var parsed := Accepted(Params(SignatureHeader(keyId, names, p.toBase64(signature))));
            && (parsed.Some? <==> Join(names, [SPACE]) != [])
            && (parsed.Some? ==> parsed.value == Parsed(keyId, RSA_SHA256, names, p.toBase64(signature)))
  {
    JoinFree(names, QUOTE);
    HeaderRoundTrip(keyId, names, p.toBase64(signature));
    ParamNames();
    if Join(names, [SPACE]) != [] {
      SplitJoin(names, SPACE);
    }
  }

  /** A request verifies under its signer's key exactly when some named header was signed and a
      digest supplied by the caller is the body's; the key id is read back as it was given. */
  lemma SignVerifyRoundTrip(p: Platform, verb: Text, url: Text, headers: Headers, body: Option<Text>, keyId: Text,
                            signedHeaderNames: seq<Text>, now: Text)
    requires Sound(p) && Free(keyId, QUOTE) && Signable(signedHeaderNames)
    requires SignedRequest(p, verb, url, headers, body, keyId, signedHeaderNames, now).Signed?
    ensures var complete := Completed(p, p.parseUrl(url).value, headers, body, now);
            var sent := SignedRequest(p, verb, url, headers, body, keyId, signedHeaderNames, now).headers;
            && (Verified(p, verb, url, sent, body) <==>
                  && Join(Usable(complete, signedHeaderNames), [SPACE]) != []
                  && (DIGEST in headers && headers[DIGEST] != [] && body.Some? ==>
                        headers[DIGEST] == p.digest(body.value)))
            && ExtractKeyId(sent[SIGNATURE]) == Some(keyId)
            && (Join(Usable(complete, signedHeaderNames), [SPACE]) != [] ==>
                  Accepted(Params(sent[SIGNATURE])).Some? && Accepted(Params(sent[SIGNATURE])).value.keyId == keyId)
  {
    var complete := Completed(p, p.parseUrl(url).value, headers, body, now);
    var names := Usable(complete, signedHeaderNames);
    UsableIsCovered(p, verb, url, complete, signedHeaderNames);
    UsableSignable(complete, signedHeaderNames);
    var message := BuildSigningString(p, verb, url, complete, names).value;
    var value := SignatureHeader(keyId, names, p.toBase64(p.sign(message)));
    SignedHeaderParses(p, keyId, names, p.sign(message));
    KeyIdExtracted(keyId, names, p.toBase64(p.sign(message)));
    SignatureIsNotCovered(p, verb, url, complete, value, names);
    CompletedDigest(p, p.parseUrl(url).value, headers, body, now, value);
  }

  /** A digest the code fills in always agrees. */
  lemma CompletedDigest(p: Platform, url: Url, headers: Headers, body: Option<Text>, now: Text, value: Text)
    ensures DigestAgrees(p, Completed(p, url, headers, body, now)[SIGNATURE := value], body)
       <==> DigestAgrees(p, headers, body)
  {
    ParamNames();
    assert |DIGEST| == 6 && |HOST| == 4 && |DATE| == 4 && |SIGNATURE| == 9;
  }
}
