/** Which signed requests do not verify: the exact condition for any header names the header can carry. */
module HttpSignatureLimits {
  import opened Texts
  import opened HttpSignature

  /** A signature scheme whose signatures fit the signed message only, and base64 on one line. */
  ghost predicate Ideal(p: Platform) {
    && Sound(p)
    && (forall m, m' :: p.verify(m', p.sign(m)) <==> m' == m)
    && (forall b :: Free(p.toBase64(b), LF))
  }

  predicate Printable(names: seq<Text>) {
    forall i :: 0 <= i < |names| ==> Free(names[i], QUOTE) && NameOk(names[i])
  }

  /** No line breaks in what could be signed. */
  ghost predicate OneLined(p: Platform, verb: Text, url: Text, headers: Headers) {
    && (forall name :: name in headers ==> Free(headers[name], LF))
    && (p.parseUrl(url).Some? ==> Free(p.lower(verb), LF) && Free(p.parseUrl(url).value.target, LF))
  }

  lemma {:induction false} SplitParts(t: Text, separator: CodeUnit)
    ensures forall i :: 0 <= i < |Split(t, separator)| ==> Free(Split(t, separator)[i], separator)
    decreases |t|
  {
    if t != [] {
      SplitParts(t[1..], separator);
    }
  }

  lemma {:induction false} SplitKeepsFree(t: Text, separator: CodeUnit, c: CodeUnit)
    requires Free(t, c)
    ensures forall i :: 0 <= i < |Split(t, separator)| ==> Free(Split(t, separator)[i], c)
    decreases |t|
  {
    if t != [] {
      SplitKeepsFree(t[1..], separator, c);
    }
  }

  /** Names come back from the header exactly when none has a space. */
  lemma NamesComeBack(names: seq<Text>)
    requires names != []
    ensures Split(Join(names, [SPACE]), SPACE) == names <==> forall i :: 0 <= i < |names| ==> Free(names[i], SPACE)
  {
    SplitParts(Join(names, [SPACE]), SPACE);
    if forall i :: 0 <= i < |names| ==> Free(names[i], SPACE) {
      SplitJoin(names, SPACE);
    }
  }

  lemma PiecesOk(names: seq<Text>)
    requires Printable(names)
    ensures forall i :: 0 <= i < |Split(Join(names, [SPACE]), SPACE)| ==> NameOk(Split(Join(names, [SPACE]), SPACE)[i])
  {
    JoinFree(names, LF);
    JoinFree(names, COLON);
    SplitKeepsFree(Join(names, [SPACE]), SPACE, LF);
    SplitKeepsFree(Join(names, [SPACE]), SPACE, COLON);
  }

  lemma UsablePrintable(headers: Headers, names: seq<Text>)
    requires Printable(names)
    ensures Printable(Usable(headers, names))
  {
    UsableElements(headers, names);
    forall i | 0 <= i < |Usable(headers, names)|
      ensures Free(Usable(headers, names)[i], QUOTE) && NameOk(Usable(headers, names)[i])
    {
      var j :| 0 <= j < |names| && names[j] == Usable(headers, names)[i];
    }
  }

  lemma OneLinedIsPlain(p: Platform, verb: Text, url: Text, headers: Headers, names: seq<Text>)
    requires OneLined(p, verb, url, headers) && forall i :: 0 <= i < |names| ==> NameOk(names[i])
    ensures Plain(p, verb, url, headers, names)
  {
  }

  lemma HeaderOneLined(p: Platform, keyId: Text, names: seq<Text>, signature: Bytes)
    requires Ideal(p) && Free(keyId, LF) && Printable(names)
    ensures Free(SignatureHeader(keyId, names, p.toBase64(signature)), LF)
  {
    JoinFree(names, LF);
    assert Free(KEY_ID, LF) && Free(ALGORITHM, LF) && Free(RSA_SHA256, LF) && Free(HEADERS, LF) && Free(SIGNATURE, LF);
  }

  lemma SameMessageThenClean(p: Platform, verb: Text, url: Text, complete: Headers, value: Text,
        names: seq<Text>, pieces: seq<Text>)
    requires BuildSigningString(p, verb, url, complete, names).Some?
    requires Plain(p, verb, url, complete, names) && Plain(p, verb, url, complete[SIGNATURE := value], pieces)
    requires BuildSigningString(p, verb, url, complete[SIGNATURE := value], pieces)
          == BuildSigningString(p, verb, url, complete, names)
    ensures pieces == names && (SIGNATURE in names ==> SIGNATURE in complete && complete[SIGNATURE] == value)
  {
    SigningStringBinds(p, verb, url, complete, names, verb, url, complete[SIGNATURE := value], pieces);
    if SIGNATURE in names {
      SignatureCovered(p, verb, url, complete, value, names);
    }
  }

  lemma CleanThenSameMessage(p: Platform, verb: Text, url: Text, complete: Headers, value: Text, names: seq<Text>)
    requires SIGNATURE in names ==> SIGNATURE in complete && complete[SIGNATURE] == value
    ensures BuildSigningString(p, verb, url, complete[SIGNATURE := value], names)
         == BuildSigningString(p, verb, url, complete, names)
  {
    if SIGNATURE in names {
      assert complete[SIGNATURE := value] == complete;
    } else {
      SignatureIsNotCovered(p, verb, url, complete, value, names);
    }
  }

  /** The names read back cover, in the request as sent, what was signed: exactly when they are the
      names signed and the signature header, if it was itself signed, is the one sent. */
  lemma SameMessage(p: Platform, verb: Text, url: Text, complete: Headers, value: Text, names: seq<Text>,
        pieces: seq<Text>)
    requires BuildSigningString(p, verb, url, complete, names).Some?
    requires Plain(p, verb, url, complete, names) && Plain(p, verb, url, complete[SIGNATURE := value], pieces)
    ensures BuildSigningString(p, verb, url, complete[SIGNATURE := value], pieces)
              == BuildSigningString(p, verb, url, complete, names)
       <==> pieces == names && (SIGNATURE in names ==> SIGNATURE in complete && complete[SIGNATURE] == value)
  {
    var sent := complete[SIGNATURE := value];
    if BuildSigningString(p, verb, url, sent, pieces) == BuildSigningString(p, verb, url, complete, names) {
      SameMessageThenClean(p, verb, url, complete, value, names, pieces);
    }
    if pieces == names && (SIGNATURE in names ==> SIGNATURE in complete && complete[SIGNATURE] == value) {
      CleanThenSameMessage(p, verb, url, complete, value, names);
    }
  }

  lemma SignatureCovered(p: Platform, verb: Text, url: Text, complete: Headers, value: Text, names: seq<Text>)
    requires SIGNATURE in names && BuildSigningString(p, verb, url, complete, names).Some?
    requires Covered(p, verb, url, complete, SIGNATURE)
          == Covered(p, verb, url, complete[SIGNATURE := value], SIGNATURE)
    ensures SIGNATURE in complete && complete[SIGNATURE] == value
  {
    assert SIGNATURE[0] == 's' as int && REQUEST_TARGET[0] == '(' as int;
    CoveredAllIs(p, verb, url, complete, names);
  }

  lemma HeaderParses(p: Platform, keyId: Text, names: seq<Text>, signature: Bytes)
    requires Sound(p) && keyId != [] && Free(keyId, QUOTE) && Printable(names) && p.toBase64(signature) != []
    ensures var parsed := Accepted(Params(SignatureHeader(keyId, names, p.toBase64(signature))));
            && (parsed.Some? <==> Join(names, [SPACE]) != [])
            && (parsed.Some? ==>
                  parsed.value == Parsed(keyId, RSA_SHA256, Split(Join(names, [SPACE]), SPACE), p.toBase64(signature)))
  {
    JoinFree(names, QUOTE);
    HeaderRoundTrip(keyId, names, p.toBase64(signature));
    ParamNames();
  }

  /** Whatever names are signed, the signature header and names with spaces among them, a request
      verifies exactly when some named header was signed, a digest the caller supplied is the body's, no
      signed name has a space, and a signed signature header is the one the call puts in its place. */
  lemma SignVerifyExact(p: Platform, verb: Text, url: Text, headers: Headers, body: Option<Text>, keyId: Text,
                        signedHeaderNames: seq<Text>, now: Text)
    requires Ideal(p) && Free(keyId, QUOTE) && Free(keyId, LF) && Printable(signedHeaderNames)
    requires SignedRequest(p, verb, url, headers, body, keyId, signedHeaderNames, now).Signed?
    requires OneLined(p, verb, url, Completed(p, p.parseUrl(url).value, headers, body, now))
    ensures var complete := Completed(p, p.parseUrl(url).value, headers, body, now);
            var names := Usable(complete, signedHeaderNames);
            var sent := SignedRequest(p, verb, url, headers, body, keyId, signedHeaderNames, now).headers;
            Verified(p, verb, url, sent, body) <==>
              && Join(names, [SPACE]) != []
              && (DIGEST in headers && headers[DIGEST] != [] && body.Some? ==>
                    headers[DIGEST] == p.digest(body.value))
              && (forall i :: 0 <= i < |names| ==> Free(names[i], SPACE))
              && (SIGNATURE in names ==> SIGNATURE in complete && complete[SIGNATURE] == sent[SIGNATURE])
  {
    var complete := Completed(p, p.parseUrl(url).value, headers, body, now);
    var names := Usable(complete, signedHeaderNames);
    UsableIsCovered(p, verb, url, complete, signedHeaderNames);
    UsablePrintable(complete, signedHeaderNames);
    var message := BuildSigningString(p, verb, url, complete, names).value;
    var value := SignatureHeader(keyId, names, p.toBase64(p.sign(message)));
    HeaderParses(p, keyId, names, p.sign(message));
    HeaderOneLined(p, keyId, names, p.sign(message));
    CompletedDigest(p, p.parseUrl(url).value, headers, body, now, value);
    if Join(names, [SPACE]) != [] {
      var pieces := Split(Join(names, [SPACE]), SPACE);
      NamesComeBack(names);
      PiecesOk(names);
      OneLinedIsPlain(p, verb, url, complete, names);
      OneLinedIsPlain(p, verb, url, complete[SIGNATURE := value], pieces);
      SameMessage(p, verb, url, complete, value, names, pieces);
    }
  }
}
