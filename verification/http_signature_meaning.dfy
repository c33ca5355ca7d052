/** What signed and verified requests guarantee to those who send and receive them. */
module HttpSignatureMeaning {
  import opened Texts
  import opened HttpSignature
  import opened HttpSignatureLimits

  // ---------------------------------------------------------------- what is sent

  /** The headers of a signed request: those given, with host and date where missing, the digest of the
      body where missing, and the signature; nothing else. */
  lemma SentHeaders(p: Platform, verb: Text, url: Text, headers: Headers, body: Option<Text>, keyId: Text,
                    signedHeaderNames: seq<Text>, now: Text)
    requires SignedRequest(p, verb, url, headers, body, keyId, signedHeaderNames, now).Signed?
    ensures var sent := SignedRequest(p, verb, url, headers, body, keyId, signedHeaderNames, now).headers;
            && p.parseUrl(url).Some? && SIGNATURE in sent
            && HOST in sent && sent[HOST] == (if HOST in headers then headers[HOST] else p.parseUrl(url).value.host)
            && DATE in sent && sent[DATE] == (if DATE in headers then headers[DATE] else now)
            && (DIGEST in sent <==> DIGEST in headers || body.Some?)
            && (DIGEST in sent ==> sent[DIGEST] == if DIGEST in headers then headers[DIGEST] else p.digest(body.value))
            && forall name :: name !in {HOST, DATE, DIGEST, SIGNATURE} ==>
                 (name in sent <==> name in headers) && (name in headers ==> sent[name] == headers[name])
  {
    HeaderNames();
  }

  lemma HeaderNames()
    ensures HOST != DATE && HOST != DIGEST && HOST != SIGNATURE
    ensures DATE != DIGEST && DATE != SIGNATURE && DIGEST != SIGNATURE
  {
    assert |HOST| == 4 && |DATE| == 4 && |DIGEST| == 6 && |SIGNATURE| == 9;
    assert HOST[0] == 'h' as int && DATE[0] == 'd' as int;
  }

  /** And the signature is over what is sent, but for the signature header: that one as it was given. */
  lemma SentSignature(p: Platform, verb: Text, url: Text, headers: Headers, body: Option<Text>, keyId: Text,
                      signedHeaderNames: seq<Text>, now: Text)
    requires SignedRequest(p, verb, url, headers, body, keyId, signedHeaderNames, now).Signed?
    ensures var sent := SignedRequest(p, verb, url, headers, body, keyId, signedHeaderNames, now).headers;
            && SIGNATURE in sent
            && var covered := if SIGNATURE in headers then sent[SIGNATURE := headers[SIGNATURE]]
                              else sent - {SIGNATURE};
            && var names := Usable(covered, signedHeaderNames);
            && var message := BuildSigningString(p, verb, url, covered, names);
            && message.Some?
            && sent[SIGNATURE] == SignatureHeader(keyId, names, p.toBase64(p.sign(message.value)))
  {
    var complete := Completed(p, p.parseUrl(url).value, headers, body, now);
    var sent := SignedRequest(p, verb, url, headers, body, keyId, signedHeaderNames, now).headers;
    HeaderNames();
    UsableIsCovered(p, verb, url, complete, signedHeaderNames);
    assert complete == if SIGNATURE in headers then sent[SIGNATURE := headers[SIGNATURE]] else sent - {SIGNATURE};
  }

  /** The names signed: those asked for that have something to sign, in their order. */
  lemma {:induction false} SignedNames(headers: Headers, names: seq<Text>, more: seq<Text>, name: Text)
    ensures Usable(headers, names + more) == Usable(headers, names) + Usable(headers, more)
    ensures Usable(headers, [name]) == if name == Ascii("(request-target)") || name in headers then [name] else []
    decreases |names|
  {
    assert [name][1..] == [];
    if names == [] {
      assert names + more == more;
    } else {
      assert (names + more)[1..] == names[1..] + more;
      SignedNames(headers, names[1..], more, name);
    }
  }

  /** The text of a Signature header, letter by letter. */
  lemma HeaderText(keyId: Text, names: seq<Text>, signature: Text)
    ensures SignatureHeader(keyId, names, signature)
         == Ascii("keyId=\"") + keyId + Ascii("\",algorithm=\"rsa-sha256\"") + Ascii(",headers=\"")
            + Join(names, [SPACE]) + Ascii("\",signature=\"") + signature + [QUOTE]
  {
    var joined := Join(names, [SPACE]);
    assert Ascii("keyId=\"") == KEY_ID + [EQUALS, QUOTE];
    assert Ascii("\",algorithm=\"rsa-sha256\"")
        == [QUOTE] + [COMMA] + (ALGORITHM + [EQUALS, QUOTE]) + RSA_SHA256 + [QUOTE];
    assert Ascii(",headers=\"") == [COMMA] + (HEADERS + [EQUALS, QUOTE]);
    assert Ascii("\",signature=\"") == [QUOTE] + [COMMA] + (SIGNATURE + [EQUALS, QUOTE]);
    Flatten(KEY_ID + [EQUALS, QUOTE], keyId, ALGORITHM + [EQUALS, QUOTE], RSA_SHA256, HEADERS + [EQUALS, QUOTE], joined,
            SIGNATURE + [EQUALS, QUOTE], signature);
    forall name, value ensures Printed(name, value) == (name + [EQUALS, QUOTE]) + value + [QUOTE] {
    }
  }

  lemma Flatten(a: Text, w: Text, b: Text, x: Text, c: Text, y: Text, d: Text, z: Text)
    ensures (a + w + [QUOTE]) + ([COMMA] + ((b + x + [QUOTE]) + ([COMMA] + ((c + y + [QUOTE])
              + ([COMMA] + (d + z + [QUOTE]))))))
         == a + w + ([QUOTE] + [COMMA] + b + x + [QUOTE]) + ([COMMA] + c) + y + ([QUOTE] + [COMMA] + d) + z + [QUOTE]
  {
  }

  // ---------------------------------------------------------------- what is signed

  /** The signing string, line by line: each name, a colon and a space, and the header's value, or the method
      in lower case and the target of the URL. */
  lemma SigningText(p: Platform, verb: Text, url: Text, headers: Headers, names: seq<Text>)
    requires names != [] && BuildSigningString(p, verb, url, headers, names).Some?
    requires Plain(p, verb, url, headers, names)
    ensures var lines := Split(BuildSigningString(p, verb, url, headers, names).value, LF);
            && |lines| == |names|
            && forall i :: 0 <= i < |names| ==> IsLineOf(p, verb, url, headers, names[i], lines[i])
  {
    CoveredAllIs(p, verb, url, headers, names);
    var values := CoveredAll(p, verb, url, headers, names).value;
    LinesFree(names, values);
    SplitJoin(SigningLines(names, values), LF);
    forall i | 0 <= i < |names| ensures IsLineOf(p, verb, url, headers, names[i], Line(names[i], values[i])) {
      assert Covered(p, verb, url, headers, names[i]) == Some(values[i]);
      LineText(p, verb, url, headers, names[i]);
    }
  }

  ghost predicate IsLineOf(p: Platform, verb: Text, url: Text, headers: Headers, name: Text, line: Text) {
    if name == Ascii("(request-target)")
    then p.parseUrl(url).Some?
         && line == Ascii("(request-target): ") + p.lower(verb) + [SPACE] + p.parseUrl(url).value.target
    else name in headers && line == name + Ascii(": ") + headers[name]
  }

  lemma LineText(p: Platform, verb: Text, url: Text, headers: Headers, name: Text)
    requires Covered(p, verb, url, headers, name).Some?
    ensures IsLineOf(p, verb, url, headers, name, Line(name, Covered(p, verb, url, headers, name).value))
  {
    assert Ascii(": ") == [COLON, SPACE] && Ascii("(request-target): ") == REQUEST_TARGET + [COLON, SPACE];
    if name == REQUEST_TARGET {
      Regroup(REQUEST_TARGET + [COLON, SPACE], p.lower(verb), [SPACE]);
      Regroup(REQUEST_TARGET + [COLON, SPACE], p.lower(verb) + [SPACE], p.parseUrl(url).value.target);
    }
  }

  // ---------------------------------------------------------------- what verifying guarantees

  /** A signature made over these headers of this request, under names that could be signed. */
  ghost predicate Genuine(p: Platform, verb: Text, url: Text, headers: Headers, names: seq<Text>, signature: Bytes) {
    && BuildSigningString(p, verb, url, headers, names).Some? && OneLined(p, verb, url, headers)
    && (forall name :: name in headers ==> NameOk(name))
    && signature == p.sign(BuildSigningString(p, verb, url, headers, names).value)
  }

  lemma CoveredNamesOk(p: Platform, verb: Text, url: Text, headers: Headers, names: seq<Text>)
    requires BuildSigningString(p, verb, url, headers, names).Some? && OneLined(p, verb, url, headers)
    requires forall name :: name in headers ==> NameOk(name)
    ensures Plain(p, verb, url, headers, names)
  {
    CoveredAllIs(p, verb, url, headers, names);
    assert NameOk(REQUEST_TARGET);
    forall i | 0 <= i < |names| ensures NameOk(names[i]) {
      assert Covered(p, verb, url, headers, names[i]).Some?;
    }
    OneLinedIsPlain(p, verb, url, headers, names);
  }

  ghost predicate Collisionless(p: Platform) {
    forall x, y :: p.digest(x) == p.digest(y) ==> x == y
  }

  /** A request that verifies under a signature made for another one names the same headers as signed and
      agrees with it in each of them; in method and target, if those were signed; and in the body, if a
      digest was signed and digests do not collide. */
  lemma VerifiedBinds(p: Platform, verb: Text, url: Text, headers: Headers, body: Option<Text>, names: seq<Text>,
        verb': Text, url': Text, headers': Headers, body': Option<Text>)
    requires Ideal(p) && Verified(p, verb', url', headers', body')
    requires var parsed := Accepted(Params(headers'[SIGNATURE])).value;
             Genuine(p, verb, url, headers, names, p.fromBase64(parsed.signature))
    requires OneLined(p, verb', url', headers') && forall name :: name in headers' ==> NameOk(name)
    ensures names == Accepted(Params(headers'[SIGNATURE])).value.signedHeaderNames
    ensures forall name :: name in names && name != REQUEST_TARGET ==>
              name in headers && name in headers' && headers'[name] == headers[name]
    ensures REQUEST_TARGET in names && Free(p.lower(verb), SPACE) && Free(p.lower(verb'), SPACE) ==>
              && p.parseUrl(url).Some? && p.parseUrl(url').Some? && p.lower(verb') == p.lower(verb)
              && p.parseUrl(url').value.target == p.parseUrl(url).value.target
    ensures && DIGEST in names && body.Some? && body'.Some? && headers[DIGEST] == p.digest(body.value) != []
            && Collisionless(p)
            ==> body' == body
  {
    var names' := Accepted(Params(headers'[SIGNATURE])).value.signedHeaderNames;
    CoveredNamesOk(p, verb, url, headers, names);
    CoveredNamesOk(p, verb', url', headers', names');
    SigningStringBinds(p, verb, url, headers, names, verb', url', headers', names');
    CoveredAllIs(p, verb, url, headers, names);
    CoveredAllIs(p, verb', url', headers', names');
    forall name | name in names
      ensures Covered(p, verb, url, headers, name).Some?
      ensures Covered(p, verb, url, headers, name) == Covered(p, verb', url', headers', name)
    {
      var i :| 0 <= i < |names| && names[i] == name;
    }
    if REQUEST_TARGET in names && Free(p.lower(verb), SPACE) && Free(p.lower(verb'), SPACE) {
      RequestLineBinds(p, verb, url, verb', url', headers, headers');
    }
    DigestChecked(p, verb', url', headers', body');
  }

  /** A request that verifies with a digest header and a body has the digest of that body in the header. */
  lemma DigestChecked(p: Platform, verb: Text, url: Text, headers: Headers, body: Option<Text>)
    requires Verified(p, verb, url, headers, body)
    ensures DIGEST in headers && headers[DIGEST] != [] && body.Some? ==> headers[DIGEST] == p.digest(body.value)
    ensures DIGEST != REQUEST_TARGET
  {
    assert |DIGEST| == 6 && |REQUEST_TARGET| == 16;
  }

  // ---------------------------------------------------------------- what the scan finds

  /** A parameter in quotes stands here. */
  ghost predicate ParamAt(t: Text, i: nat, name: Text, value: Text, rest: Text) {
    i <= |t| && IsWord(name) && Free(value, QUOTE) && t[i..] == name + [EQUALS, QUOTE] + value + [QUOTE] + rest
  }

  lemma {:induction false} WordPrefix(t: Text)
    ensures var n := WordLength(t); (forall i :: 0 <= i < n ==> IsWordUnit(t[i])) && (n < |t| ==> !IsWordUnit(t[n]))
  {
    if t != [] && IsWordUnit(t[0]) {
      WordPrefix(t[1..]);
    }
  }

  lemma {:induction false} QuotePrefix(t: Text)
    ensures var k := FindQuote(t); k.Some? ==> t[k.value] == QUOTE && Free(t[..k.value], QUOTE)
  {
    if t != [] && t[0] != QUOTE {
      QuotePrefix(t[1..]);
      if FindQuote(t).Some? {
        assert t[..FindQuote(t).value] == [t[0]] + t[1..][..FindQuote(t).value - 1];
      }
    }
  }

  lemma MatchHereFound(t: Text)
    requires MatchHere(t).Some?
    ensures var m := MatchHere(t).value; ParamAt(t, 0, m.name, m.value, m.rest)
  {
    var n := WordLength(t);
    var tail := t[n + 2..];
    var k := FindQuote(tail).value;
    WordPrefix(t);
    QuotePrefix(tail);
    assert tail == tail[..k] + [QUOTE] + tail[k + 1..];
    assert t == t[..n] + [EQUALS, QUOTE] + tail;
    Regroup(t[..n] + [EQUALS, QUOTE], tail[..k], [QUOTE]);
    Regroup(t[..n] + [EQUALS, QUOTE], tail[..k] + [QUOTE], tail[k + 1..]);
    assert t[0..] == t;
  }

  lemma MatchHereFinds(t: Text, name: Text, value: Text, rest: Text)
    requires ParamAt(t, 0, name, value, rest)
    ensures MatchHere(t) == Some(Match(name, value, rest))
  {
    var tail := value + ([QUOTE] + rest);
    assert t == t[0..] == name + ([EQUALS, QUOTE] + tail);
    WordIs(name, [EQUALS, QUOTE] + tail);
    assert t[..|name|] == name && t[|name| + 2..] == tail;
    QuoteIs(value, rest);
    assert tail[..|value|] == value && tail[|value| + 1..] == rest;
  }

  lemma MatchHereIs(t: Text)
    ensures MatchHere(t).Some? ==> var m := MatchHere(t).value; ParamAt(t, 0, m.name, m.value, m.rest)
    ensures forall name, value, rest ::
              ParamAt(t, 0, name, value, rest) ==> MatchHere(t) == Some(Match(name, value, rest))
  {
    if MatchHere(t).Some? {
      MatchHereFound(t);
    }
    forall name, value, rest | ParamAt(t, 0, name, value, rest) ensures MatchHere(t) == Some(Match(name, value, rest)) {
      MatchHereFinds(t, name, value, rest);
    }
  }

  /** The scan finds the first parameter in quotes, if there is one. */
  lemma {:induction false} MatchIsFirst(t: Text)
    ensures var m := FindMatch(t);
            && (m.None? ==> forall i: nat, name, value, rest :: !ParamAt(t, i, name, value, rest))
            && (m.Some? ==> exists i: nat ::
                  ParamAt(t, i, m.value.name, m.value.value, m.value.rest)
                  && forall j: nat, name, value, rest :: j < i ==> !ParamAt(t, j, name, value, rest))
    decreases |t|
  {
    MatchHereIs(t);
    if t == [] {
      forall i: nat, name, value, rest ensures !ParamAt(t, i, name, value, rest) {
      }
    } else if MatchHere(t).None? {
      MatchIsFirst(t[1..]);
      forall i: nat, name, value, rest
        ensures ParamAt(t, i, name, value, rest) <==> i > 0 && ParamAt(t[1..], i - 1, name, value, rest)
      {
        assert 0 < i <= |t| ==> t[1..][i - 1..] == t[i..];
        assert t[0..] == t;
      }
      var m := FindMatch(t);
      if m.Some? {
        var i: nat :| ParamAt(t[1..], i, m.value.name, m.value.value, m.value.rest)
                      && forall j: nat, name, value, rest :: j < i ==> !ParamAt(t[1..], j, name, value, rest);
        assert ParamAt(t, i + 1, m.value.name, m.value.value, m.value.rest);
      }
    } else {
      assert t[0..] == t;
    }
  }

  lemma Printing(name: Text, value: Text, rest: Text)
    ensures name + [EQUALS, QUOTE] + value + [QUOTE, COMMA] + rest == Printed(name, value) + ([COMMA] + rest)
  {
    assert [QUOTE, COMMA] + rest == [QUOTE] + ([COMMA] + rest);
    Regroup(name, [EQUALS, QUOTE], value);
  }

  /** A later parameter of the same name counts, and otherwise each counts. */
  lemma LaterParamWins(name: Text, value: Text, rest: Text)
    requires IsWord(name) && Free(value, QUOTE)
    ensures var params := Params(name + [EQUALS, QUOTE] + value + [QUOTE, COMMA] + rest);
            && params.Keys == Params(rest).Keys + {name}
            && (forall other :: other in Params(rest) ==> params[other] == Params(rest)[other])
            && (name !in Params(rest) ==> params[name] == value)
  {
    ParamsPrinted(name, value, rest);
    Printing(name, value, rest);
  }

  /** A key id in quotes stands here. */
  ghost predicate KeyIdAt(t: Text, i: nat, keyId: Text, rest: Text) {
    i <= |t| && Free(keyId, QUOTE) && t[i..] == Ascii("keyId=\"") + keyId + [QUOTE] + rest
  }

  lemma KeyIdHere(t: Text)
    ensures (exists keyId, rest :: KeyIdAt(t, 0, keyId, rest))
       <==> KEY_ID_OPENS <= t && FindQuote(t[|KEY_ID_OPENS|..]).Some?
    ensures forall keyId, rest :: KeyIdAt(t, 0, keyId, rest) ==>
              KEY_ID_OPENS <= t && FindQuote(t[|KEY_ID_OPENS|..]) == Some(|keyId|)
              && t[|KEY_ID_OPENS|..][..|keyId|] == keyId
  {
    assert Ascii("keyId=\"") == KEY_ID_OPENS && t[0..] == t;
    forall keyId, rest | KeyIdAt(t, 0, keyId, rest)
      ensures KEY_ID_OPENS <= t && FindQuote(t[|KEY_ID_OPENS|..]) == Some(|keyId|)
      ensures t[|KEY_ID_OPENS|..][..|keyId|] == keyId
    {
      Regroup(KEY_ID_OPENS, keyId, [QUOTE]);
      Regroup(KEY_ID_OPENS, keyId + [QUOTE], rest);
      Regroup(keyId, [QUOTE], rest);
      assert t[|KEY_ID_OPENS|..] == keyId + ([QUOTE] + rest);
      QuoteIs(keyId, rest);
    }
    if KEY_ID_OPENS <= t && FindQuote(t[|KEY_ID_OPENS|..]).Some? {
      var tail := t[|KEY_ID_OPENS|..];
      var k := FindQuote(tail).value;
      QuotePrefix(tail);
      assert tail == tail[..k] + [QUOTE] + tail[k + 1..];
      Regroup(KEY_ID_OPENS, tail[..k], [QUOTE]);
      Regroup(KEY_ID_OPENS, tail[..k] + [QUOTE], tail[k + 1..]);
      assert t == KEY_ID_OPENS + tail;
      assert KeyIdAt(t, 0, tail[..k], tail[k + 1..]);
    }
  }

  /** The extractor gives the first key id in quotes, wherever it stands, and nothing if there is none. */
  lemma {:induction false} KeyIdIsFirst(t: Text)
    ensures var v := ExtractKeyId(t);
            && (v.None? ==> forall i: nat, keyId, rest :: !KeyIdAt(t, i, keyId, rest))
            && (v.Some? ==> exists i: nat, rest ::
                  KeyIdAt(t, i, v.value, rest) && forall j: nat, keyId, r :: j < i ==> !KeyIdAt(t, j, keyId, r))
    decreases |t|
  {
    KeyIdHere(t);
    if t == [] {
    } else if KEY_ID_OPENS <= t && FindQuote(t[|KEY_ID_OPENS|..]).Some? {
      var keyId, rest :| KeyIdAt(t, 0, keyId, rest);
      assert ExtractKeyId(t) == Some(keyId);
    } else {
      KeyIdIsFirst(t[1..]);
      forall i: nat, keyId, rest
        ensures KeyIdAt(t, i, keyId, rest) <==> i > 0 && KeyIdAt(t[1..], i - 1, keyId, rest)
      {
        assert 0 < i <= |t| ==> t[1..][i - 1..] == t[i..];
      }
      var v := ExtractKeyId(t);
      if v.Some? {
        var i: nat, rest :| KeyIdAt(t[1..], i, v.value, rest)
                            && forall j: nat, keyId, r :: j < i ==> !KeyIdAt(t[1..], j, keyId, r);
        assert KeyIdAt(t, i + 1, v.value, rest);
      }
    }
  }
}
