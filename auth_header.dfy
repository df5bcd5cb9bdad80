/** Parsing of the `Authorization` header of a token-exchange request into
    the raw identity token (`extractAndDecodeToken`). */
module AuthHeader {
  import opened Base
  import opened JsString

  const BearerPrefix: string := "Bearer "
  // The longer messages are written as concatenations of short literals,
  // which lets the verifier reason about their individual characters.
  const MissingHeaderMessage: string := "Missing or invalid " + "Authorization header"
  const MalformedTokenMessage: string := "Invalid JWT format - " + "token must have three parts"

  /** An identity token has the shape of a JWT: three `.`-separated segments. */
  predicate HasThreeSegments(token: string)
  {
    |Split(token, '.')| == 3
  }

  /** `authHeader.split(' ')[1]` for a header that starts with `Bearer `;
      the prefix guarantees a second field. */
  function BearerField(header: string): (field: string)
    requires StartsWith(header, BearerPrefix)
    ensures ' ' !in field
  {
    assert header[6] == BearerPrefix[6];
    Split(header, ' ')[1]
  }

  /** The token text the source derives from the second field: trimmed, then
      stripped of one leading and one trailing quote. */
  function Payload(header: string): string
    requires StartsWith(header, BearerPrefix)
  {
    StripQuotes(Trim(BearerField(header)))
  }

  /** `extractAndDecodeToken(authHeader)`: the raw token, or the error the
      source throws. An absent header is `None`. */
  function ExtractAndDecodeToken(authorization: Option<string>): (r: Result<string>)
    ensures r == Err(Error(MissingHeaderMessage, None))
        <==> authorization.None? || !StartsWith(authorization.value, BearerPrefix)
    ensures r == Err(Error(MalformedTokenMessage, None))
        <==> authorization.Some? && StartsWith(authorization.value, BearerPrefix)
             && !HasThreeSegments(Payload(authorization.value))
    ensures r.Ok? ==> HasThreeSegments(r.value) && ' ' !in r.value
    ensures r.Err? ==> r.error.status.None?
  {
    if authorization.None? || !StartsWith(authorization.value, BearerPrefix) then
      Err(Error(MissingHeaderMessage, None))
    else
      var token := Payload(authorization.value);
      if !HasThreeSegments(token) then
        Err(Error(MalformedTokenMessage, None))
      else
        assert ' ' !in token by { StripQuotesNoSpace(Trim(BearerField(authorization.value))); }
        Ok(token)
  }

  lemma StripQuotesNoSpace(s: string)
    requires ' ' !in s
    ensures ' ' !in StripQuotes(s)
  {
    StripQuotesSlice(s);
  }

  /** The second field of a `Bearer ` header is the text after the first
      space (the one ending the prefix) up to the next space or the end. */
  lemma BearerFieldBetweenSpaces(header: string) returns (j: nat)
    requires StartsWith(header, BearerPrefix)
    ensures 7 <= j <= |header| && (j < |header| ==> header[j] == ' ')
    ensures forall k :: 7 <= k < j ==> header[k] != ' '
    ensures BearerField(header) == header[7..j]
  {
    assert forall k :: 0 <= k < 7 ==> header[k] == BearerPrefix[k];
    assert header[6] == ' ';
    var i;
    i, j := SplitSecond(header, ' ');
    assert i == 6;
  }

  /** What a `Bearer ` header yields: its second field, trimmed, with at most
      one leading and at most one trailing quote removed independently; it is
      returned exactly when it has three `.`-separated segments, that is,
      exactly two dots. */
  lemma ExtractedToken(header: string) returns (field: string, trimmed: string)
    requires StartsWith(header, BearerPrefix)
    ensures field == BearerField(header) && ' ' !in field
    ensures trimmed == Trim(field)
    ensures Payload(header) == trimmed[LeadingQuote(trimmed)..|trimmed| - TrailingQuote(trimmed)]
    ensures ExtractAndDecodeToken(Some(header))
         == if CountChar(Payload(header), '.') == 2 then Ok(Payload(header))
            else Err(Error(MalformedTokenMessage, None))
  {
    field := BearerField(header);
    trimmed := Trim(field);
    StripQuotesSlice(trimmed);
    SplitCount(Payload(header), '.');
  }

  /** A header that is only the prefix carries no token. */
  lemma EmptyTokenRejected()
    ensures ExtractAndDecodeToken(Some("Bearer ")) == Err(Error(MalformedTokenMessage, None))
  {
    var h := "Bearer ";
    assert StartsWith(h, BearerPrefix);
    var j := BearerFieldBetweenSpaces(h);
    assert Trim([]) == [];
    assert StripQuotes([]) == [];
  }

  /** Two spaces after `Bearer` leave an empty second field, so the token is rejected. */
  lemma DoubleSpaceRejected(rest: string)
    ensures ExtractAndDecodeToken(Some(BearerPrefix + " " + rest)) == Err(Error(MalformedTokenMessage, None))
  {
    var h := BearerPrefix + " " + rest;
    assert StartsWith(h, BearerPrefix) by { assert h[..7] == BearerPrefix; }
    var j := BearerFieldBetweenSpaces(h);
    assert h[7] == ' ';
    assert j == 7;
    assert Trim([]) == [];
    assert StripQuotes([]) == [];
  }

  /** The prefix is case-sensitive. */
  lemma LowerCasePrefixRejected(rest: string)
    ensures ExtractAndDecodeToken(Some("bearer " + rest)) == Err(Error(MissingHeaderMessage, None))
  {
    assert ("bearer " + rest)[0] == 'b';
  }

  /** A token the header can carry as it is: no space, and neither
      whitespace nor a quote at either end. */
  predicate IsBareToken(token: string)
  {
    token != [] && ' ' !in token
    && !IsWhitespace(token[0]) && !IsWhitespace(token[|token| - 1])
    && !IsQuote(token[0]) && !IsQuote(token[|token| - 1])
  }

  /** Nothing, or one quote character. */
  predicate IsOptionalQuote(q: string)
  {
    q == [] || (|q| == 1 && IsQuote(q[0]))
  }

  /** Whitespace other than the space that separates the header's fields. */
  predicate IsPadding(w: string)
  {
    AllWhitespace(w) && ' ' !in w
  }

  /** A space-free text after the prefix is the whole second field. */
  lemma BearerFieldOfSpaceFree(field: string)
    requires ' ' !in field
    ensures StartsWith(BearerPrefix + field, BearerPrefix)
    ensures BearerField(BearerPrefix + field) == field
  {
    var h := BearerPrefix + field;
    assert h[..7] == BearerPrefix;
    var j := BearerFieldBetweenSpaces(h);
    assert h[7..] == field;
  }

  /** Stripping removes exactly the optional quotes around a bare token. */
  lemma OptionalQuotesStripped(open: string, token: string, close: string)
    requires IsOptionalQuote(open) && IsOptionalQuote(close)
    requires IsBareToken(token)
    ensures StripQuotes(open + token + close) == token
  {
    var core := open + token + close;
    assert core[0] == if open == [] then token[0] else open[0];
    assert core[|core| - 1] == if close == [] then token[|token| - 1] else close[0];
    StripQuotesSlice(core);
    assert core[|open|..|core| - |close|] == token;
  }

  /** The quoted token has no whitespace at either end. */
  lemma QuotedTokenEnds(open: string, token: string, close: string)
    requires IsOptionalQuote(open) && IsOptionalQuote(close)
    requires IsBareToken(token)
    ensures var core := open + token + close;
            core != [] && !IsWhitespace(core[0]) && !IsWhitespace(core[|core| - 1]) && ' ' !in core
  {
    var core := open + token + close;
    assert core[0] == if open == [] then token[0] else open[0];
    assert core[|core| - 1] == if close == [] then token[|token| - 1] else close[0];
  }

  /** Trimming padding and stripping optional quotes recovers a bare token. */
  lemma PaddedQuotedTokenRecovered(pre: string, open: string, token: string, close: string, post: string)
    requires IsPadding(pre) && IsPadding(post)
    requires IsOptionalQuote(open) && IsOptionalQuote(close)
    requires IsBareToken(token)
    ensures ' ' !in pre + open + token + close + post
    ensures StripQuotes(Trim(pre + open + token + close + post)) == token
  {
    var core := open + token + close;
    assert pre + open + token + close + post == pre + core + post;
    QuotedTokenEnds(open, token, close);
    TrimExact(pre, core, post);
    OptionalQuotesStripped(open, token, close);
  }

  /** Round trip: a bare token sent as `Bearer <token>`, optionally padded
      with tabs or line breaks and optionally wrapped in one quote on either
      side (independently), is extracted unchanged when it has three
      segments, and rejected as malformed otherwise. */
  lemma BearerTokenRoundTrip(pre: string, open: string, token: string, close: string, post: string)
    requires IsPadding(pre) && IsPadding(post)
    requires IsOptionalQuote(open) && IsOptionalQuote(close)
    requires IsBareToken(token)
    ensures ExtractAndDecodeToken(Some(BearerPrefix + pre + open + token + close + post))
         == if CountChar(token, '.') == 2 then Ok(token) else Err(Error(MalformedTokenMessage, None))
  {
    var field := pre + open + token + close + post;
    var h := BearerPrefix + field;
    assert BearerPrefix + pre + open + token + close + post == h by {
      Regroup(BearerPrefix, pre, open, token, close, post);
    }
    assert StartsWith(h, BearerPrefix) && Payload(h) == token by {
      PaddedQuotedTokenRecovered(pre, open, token, close, post);
      BearerFieldOfSpaceFree(field);
    }
    assert HasThreeSegments(token) <==> CountChar(token, '.') == 2 by {
      SplitCount(token, '.');
    }
  }

  // Proof step only: reassociates a six-part concatenation.
  lemma Regroup(a: string, b: string, c: string, d: string, e: string, f: string)
    ensures a + b + c + d + e + f == a + (b + c + d + e + f)
  {
  }

  /** `Bearer "h.p.s"` yields `h.p.s`. */
  lemma QuotedTokenAccepted()
    ensures ExtractAndDecodeToken(Some(BearerPrefix + "\"" + "h.p.s" + "\"")) == Ok("h.p.s")
  {
    var token := "h.p.s";
    ExampleTokenShape(token);
    assert IsOptionalQuote("\"");
    BearerTokenRoundTrip([], "\"", token, "\"", []);
    WithoutPadding(BearerPrefix, "\"", token, "\"");
  }

  /** `Bearer h.p.s` yields `h.p.s`. */
  lemma PlainTokenAccepted(header: string)
    requires header == BearerPrefix + "h.p.s"
    ensures ExtractAndDecodeToken(Some(header)) == Ok("h.p.s")
  {
    var token := "h.p.s";
    ExampleTokenShape(token);
    BearerTokenRoundTrip([], [], token, [], []);
    WithoutQuotes(BearerPrefix, token);
  }

  lemma ExampleTokenShape(token: string)
    requires token == "h.p.s"
    ensures IsBareToken(token) && CountChar(token, '.') == 2
  {
    assert IsBareToken(token) by {
      assert token[0] == 'h' && token[4] == 's';
      assert ' ' !in token;
    }
    assert CountChar(token, '.') == 2 by {
      ExampleTokenDots(token);
    }
  }

  // Proof step only: counts the dots of the example token one character at a time.
  lemma ExampleTokenDots(token: string)
    requires token == "h.p.s"
    ensures CountChar(token, '.') == 2
  {
    assert token == ['h'] + (['.'] + (['p'] + (['.'] + (['s'] + []))));
    CountCharCons('s', [], '.');
    CountCharCons('.', ['s'] + [], '.');
    CountCharCons('p', ['.'] + (['s'] + []), '.');
    CountCharCons('.', ['p'] + (['.'] + (['s'] + [])), '.');
    CountCharCons('h', ['.'] + (['p'] + (['.'] + (['s'] + []))), '.');
  }

  // Proof step only: the header with empty padding, regrouped.
  lemma WithoutPadding(prefix: string, open: string, token: string, close: string)
    ensures prefix + [] + open + token + close + [] == prefix + open + token + close
  {
  }

  // Proof step only: the header with empty quotes and padding, regrouped.
  lemma WithoutQuotes(prefix: string, token: string)
    ensures prefix + [] + [] + token + [] + [] == prefix + token
  {
  }
}
