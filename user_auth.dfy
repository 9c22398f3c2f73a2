/** The profile-registration checks: the bearer token is taken from the `Authorization` header,
    its shape is checked as a JWT in compact serialisation (three segments separated by `.`,
    section 7.1 of RFC 7515), and only a well-shaped token is handed to the token verifier. */
module UserAuth {
  import opened Wrappers
  import opened Text

  /** The `ValueError`s `create_profile` raises. */
  datatype AuthError =
    /** "Invalid authorization header format", whatever went wrong with the header. */
    | InvalidHeader
    /** "Invalid token format: Token must be a valid JWT". */
    | InvalidTokenFormat
    /** The verifier rejected the token. */
    | InvalidFirebaseToken
    /** "No UID found in token". */
    | NoUid
    /** "Failed to create profile", for any other exception (the insert failing). */
    | CreateFailed

  // ---------------------------------------------------------------------------------------
  // The bearer token

  /** `extract_token`: the text between the first and the second space of a header that starts
      with "Bearer ". The inner error is re-raised under the same message as any other failure. */
  function ExtractToken(header: string): (r: Result<string, AuthError>)
    ensures r.Err? <==> !StartsWith(header, "Bearer ")
    ensures r.Err? ==> r.error == InvalidHeader
    ensures r.Ok? ==>
      ' ' !in r.value && StartsWith(header, "Bearer " + r.value)
      && (|header| == 7 + |r.value| || header[7 + |r.value|] == ' ')
  {
    if !StartsWith(header, "Bearer ") then Err(InvalidHeader)
    else
      assert "Bearer " == "Bearer" + [' '];
      SplitAfterPrefix(header, "Bearer", ' ');
      var token := Split(header, ' ')[1];
      var rest := header[7..];
      var j := IndexOf(rest, ' ');
      assert token == if j == -1 then rest else rest[..j];
      assert header == "Bearer " + rest;
      Ok(token)
  }

  /** The token comes back out of the header it is put in, with or without text after it. */
  lemma ExtractTokenRoundTrip(token: string, more: string)
    requires ' ' !in token
    ensures ExtractToken("Bearer " + token) == Ok(token)
    ensures ExtractToken("Bearer " + token + " " + more) == Ok(token)
  {
    TokenAlone(token);
    TokenFollowed(token, more);
  }

  lemma TokenAlone(token: string)
    requires ' ' !in token
    ensures ExtractToken("Bearer " + token) == Ok(token)
  {
    var h := "Bearer " + token;
    assert "Bearer " == "Bearer" + [' '];
    SplitAfterPrefix(h, "Bearer", ' ');
    assert h[7..] == token;
  }

  lemma TokenFollowed(token: string, more: string)
    requires ' ' !in token
    ensures ExtractToken("Bearer " + token + " " + more) == Ok(token)
  {
    var rest := token + [' '] + more;
    assert "Bearer " + token + " " + more == "Bearer " + rest by {
      assert token + " " + more == rest;
    }
    TokenBeforeSpace(token, rest);
  }

  lemma TokenBeforeSpace(token: string, rest: string)
    requires ' ' !in token && |token| < |rest| && rest[..|token|] == token && rest[|token|] == ' '
    ensures ExtractToken("Bearer " + rest) == Ok(token)
  {
    var h := "Bearer " + rest;
    assert "Bearer " == "Bearer" + [' '];
    SplitAfterPrefix(h, "Bearer", ' ');
    assert h[7..] == rest;
    IndexOfPrefix(rest, token, ' ');
  }

  // ---------------------------------------------------------------------------------------
  // The JWT shape check

  /** `n` padding characters. */
  function Pads(n: nat): (s: string)
    ensures |s| == n && forall i :: 0 <= i < n ==> s[i] == '='
  {
    if n == 0 then [] else Pads(n - 1) + "="
  }

  /** `part + '=' * ((4 - len(part) % 4) % 4)`. */
  function Padded(part: string): string {
    part + Pads((4 - |part| % 4) % 4)
  }

  /** Padding keeps the segment, adds fewer than four `=` and makes the length a multiple of four. */
  lemma PaddedLength(part: string)
    ensures |Padded(part)| % 4 == 0 && |Padded(part)| - |part| < 4 && Padded(part)[..|part|] == part
    ensures |part| % 4 == 0 ==> Padded(part) == part
  {
    if |part| % 4 == 0 {
      assert Padded(part) == part + [];
    }
  }

  /** `is_valid_jwt_format` as written: exactly three segments, and each padded segment is
      accepted by `base64.b64decode`, which `decodes` stands for (its exceptions are caught, so
      the check never raises). */
  predicate JwtShaped(token: string, decodes: string -> bool) {
    var parts := Split(token, '.');
    |parts| == 3 && forall k :: 0 <= k < 3 ==> decodes(Padded(parts[k]))
  }

  /** The loop over the segments, padding each before decoding it. */
  method IsValidJwtFormat(token: string, decodes: string -> bool) returns (ok: bool)
    ensures ok <==> JwtShaped(token, decodes)
  {
    var parts := Split(token, '.');
    if |parts| != 3 {
      return false;
    }
    var i := 0;
    while i < |parts|
      invariant 0 <= i <= |parts|
      invariant forall k :: 0 <= k < i ==> decodes(Padded(parts[k]))
    {
      var part := parts[i];
      part := part + Pads((4 - |part| % 4) % 4);
      if !decodes(part) {
        return false;
      }
      i := i + 1;
    }
    return true;
  }

  // ---------------------------------------------------------------------------------------
  // The alphabets

  /** The alphabet of section 4 of RFC 4648, which `b64decode` decodes. */
  predicate StdChar(c: char) { 'A' <= c <= 'Z' || 'a' <= c <= 'z' || '0' <= c <= '9' || c == '+' || c == '/' }

  /** The URL-safe alphabet of section 5 of RFC 4648, in which JWT segments are written. */
  predicate UrlChar(c: char) { 'A' <= c <= 'Z' || 'a' <= c <= 'z' || '0' <= c <= '9' || c == '-' || c == '_' }

  predicate Ascii(s: string) { forall i :: 0 <= i < |s| ==> s[i] < 128 as char }

  /** The number of characters of `s` in the standard alphabet. */
  function StdCount(s: string): (n: nat)
    ensures n <= |s|
  {
    if s == [] then 0 else StdCount(s[..|s| - 1]) + (if StdChar(s[|s| - 1]) then 1 else 0)
  }

  /** What the library documents for an ASCII text without `=`: characters outside the
      standard alphabet are discarded before the padding check, so the text decodes exactly
      when the remaining characters form whole groups of four. */
  ghost predicate PlainTextDecoding(decodes: string -> bool) {
    forall s :: Ascii(s) && '=' !in s ==> (decodes(s) <==> StdCount(s) % 4 == 0)
  }

  /** `-` to `+` and `_` to `/`, as `base64.urlsafe_b64decode` translates before decoding. */
  function UrlToStd(s: string): (r: string)
    ensures |r| == |s|
    ensures forall i :: 0 <= i < |s| ==> r[i] == (if s[i] == '-' then '+' else if s[i] == '_' then '/' else s[i])
  {
    if s == [] then [] else UrlToStd(s[..|s| - 1]) + [if s[|s| - 1] == '-' then '+' else if s[|s| - 1] == '_' then '/' else s[|s| - 1]]
  }

  /** The check with each segment decoded in the URL-safe alphabet. */
  predicate JwtShapedUrlSafe(token: string, decodes: string -> bool) {
    var parts := Split(token, '.');
    |parts| == 3 && forall k :: 0 <= k < 3 ==> decodes(UrlToStd(Padded(parts[k])))
  }

  lemma {:induction false} StdCountAll(s: string)
    requires forall i :: 0 <= i < |s| ==> StdChar(s[i])
    ensures StdCount(s) == |s|
  {
    if s != [] {
      StdCountAll(s[..|s| - 1]);
    }
  }

  /** A segment in the URL-safe alphabet whose length is a multiple of four needs no padding and
      translates into whole groups of the standard alphabet. */
  lemma UrlSegmentDecodes(p: string, decodes: string -> bool)
    requires PlainTextDecoding(decodes)
    requires |p| % 4 == 0 && forall i :: 0 <= i < |p| ==> UrlChar(p[i])
    ensures decodes(UrlToStd(Padded(p)))
  {
    PaddedLength(p);
    var t := UrlToStd(p);
    assert forall i :: 0 <= i < |t| ==> StdChar(t[i]);
    StdCountAll(t);
    assert '=' !in t by {
      forall i | 0 <= i < |t| ensures t[i] != '=' {
        assert StdChar(t[i]);
      }
    }
  }

  /** The corrected check accepts every three-segment token written in the URL-safe alphabet
      whose segments need no padding. */
  lemma UrlSafeAccepts(token: string, decodes: string -> bool)
    requires PlainTextDecoding(decodes)
    requires var parts := Split(token, '.');
      |parts| == 3 && forall k :: 0 <= k < 3 ==> |parts[k]| % 4 == 0 && forall i :: 0 <= i < |parts[k]| ==> UrlChar(parts[k][i])
    ensures JwtShapedUrlSafe(token, decodes)
  {
    var parts := Split(token, '.');
    forall k | 0 <= k < 3 ensures decodes(UrlToStd(Padded(parts[k]))) {
      UrlSegmentDecodes(parts[k], decodes);
    }
  }

  /** On a token without `-` and `_` the two checks agree. */
  lemma ChecksAgreeWithoutUrlCharacters(token: string, decodes: string -> bool)
    requires '-' !in token && '_' !in token
    ensures JwtShaped(token, decodes) <==> JwtShapedUrlSafe(token, decodes)
  {
    var parts := Split(token, '.');
    if |parts| == 3 {
      forall k | 0 <= k < 3 ensures UrlToStd(Padded(parts[k])) == Padded(parts[k]) {
        SplitAvoids(token, '.', k, '-');
        SplitAvoids(token, '.', k, '_');
        var p := Padded(parts[k]);
        assert forall i :: 0 <= i < |parts[k]| ==> p[i] == parts[k][i];
        assert forall i :: |parts[k]| <= i < |p| ==> p[i] == '=';
      }
    }
  }

  /** A character the text lacks is in none of its segments. */
  lemma {:induction false} SplitAvoids(s: string, c: char, k: nat, x: char)
    requires k < |Split(s, c)| && x !in s
    ensures x !in Split(s, c)[k]
    decreases |s|
  {
    var i := IndexOf(s, c);
    var parts := Split(s, c);
    if i == -1 {
      assert parts == [s];
    } else {
      var head, tail := s[..i], s[i + 1..];
      var rest := Split(tail, c);
      assert parts == [head] + rest;
      if k == 0 {
        assert x !in head;
      } else {
        assert x !in tail;
        ConsIndex(head, rest, k);
        SplitAvoids(tail, c, k - 1, x);
      }
    }
  }

  lemma ConsIndex(head: string, rest: seq<string>, k: nat)
    requires 0 < k <= |rest|
    ensures ([head] + rest)[k] == rest[k - 1]
  {
  }

  /** The discrepancy: a segment of whole groups of four that holds a `-` or `_` loses those
      characters before the padding check and is rejected, although the token is a well-formed
      JWT that the URL-safe check accepts. */
  lemma UrlSegmentRejected(token: string, decodes: string -> bool, k: nat)
    requires PlainTextDecoding(decodes)
    requires var parts := Split(token, '.');
      |parts| == 3 && k < 3 && |parts[k]| % 4 == 0 && Ascii(parts[k]) && '=' !in parts[k]
      && StdCount(parts[k]) % 4 != 0
    ensures !JwtShaped(token, decodes)
  {
    var p := Split(token, '.')[k];
    PaddedLength(p);
  }

  /** A concrete token: three four-character segments, the first holding one `-`. */
  lemma ExampleToken(token: string, decodes: string -> bool)
    requires PlainTextDecoding(decodes)
    requires Split(token, '.') == ["ab-c", "abcd", "abcd"]
    ensures !JwtShaped(token, decodes)
    ensures JwtShapedUrlSafe(token, decodes)
  {
    var a, b := "ab-c", "abcd";
    assert StdCount(a) == 3 by {
      assert a[..3] == "ab-";
      assert "ab-"[..2] == "ab";
    }
    assert forall i :: 0 <= i < |a| ==> UrlChar(a[i]) && a[i] < 128 as char && a[i] != '=';
    assert forall i :: 0 <= i < |b| ==> UrlChar(b[i]);
    SegmentsJudged(token, a, b, b, decodes);
  }

  /** A three-segment URL-safe token of whole groups whose first segment loses characters to the
      standard alphabet is rejected as written and accepted by the corrected check. */
  lemma SegmentsJudged(token: string, a: string, b: string, d: string, decodes: string -> bool)
    requires PlainTextDecoding(decodes)
    requires Split(token, '.') == [a, b, d]
    requires |a| % 4 == 0 && |b| % 4 == 0 && |d| % 4 == 0
    requires forall i :: 0 <= i < |a| ==> UrlChar(a[i])
    requires forall i :: 0 <= i < |b| ==> UrlChar(b[i])
    requires forall i :: 0 <= i < |d| ==> UrlChar(d[i])
    requires Ascii(a) && '=' !in a && StdCount(a) % 4 != 0
    ensures !JwtShaped(token, decodes)
    ensures JwtShapedUrlSafe(token, decodes)
  {
    var parts := Split(token, '.');
    assert parts[0] == a && parts[1] == b && parts[2] == d;
    UrlSegmentRejected(token, decodes, 0);
    UrlSegmentDecodes(a, decodes);
    UrlSegmentDecodes(b, decodes);
    UrlSegmentDecodes(d, decodes);
  }

  /** The token of the example has those three segments. */
  lemma ExampleTokenSegments()
    ensures Split("ab-c.abcd.abcd", '.') == ["ab-c", "abcd", "abcd"]
  {
    var a, b := "ab-c", "abcd";
    assert '.' !in a && '.' !in b;
    ThreeSegments(a, b, b);
    assert a + ['.'] + (b + ['.'] + b) == "ab-c.abcd.abcd";
  }

  /** Three segments without `.` joined with `.` split back into the three. */
  lemma ThreeSegments(a: string, b: string, d: string)
    requires '.' !in a && '.' !in b && '.' !in d
    ensures Split(a + ['.'] + (b + ['.'] + d), '.') == [a, b, d]
  {
    SplitAt(a, b + ['.'] + d, '.');
    SplitAt(b, d, '.');
    assert IndexOf(d, '.') == -1;
  }

  lemma SplitAt(a: string, b: string, c: char)
    requires c !in a
    ensures Split(a + [c] + b, c) == [a] + Split(b, c)
  {
    var s := a + [c] + b;
    assert s[..|a|] == a;
    IndexOfPrefix(s, a, c);
    assert s[|a| + 1..] == b;
  }

  // ---------------------------------------------------------------------------------------
  // Registration

  /** What the verifier finds in a token. */
  datatype Claims = Claims(uid: Option<string>, email: Option<string>)

  /** The new `users` row. */
  datatype User = User(firebaseUid: string, email: Option<string>, nickname: Option<string>, profile: Option<string>)

  /** The result and whether the session was rolled back. */
  datatype Outcome = Outcome(result: Result<Option<User>, AuthError>, rolledBack: bool)

  /** `create_profile`, with the corrected shape check: `verify` is the token verifier (`None`
      when it raises), `registered` says whether a user with a UID exists, and `insertFails`
      whether the insert raises. An existing user gives `None`; every error rolls back. */
  function CreateProfile(header: string, nickname: Option<string>, profile: Option<string>,
                         decodes: string -> bool, verify: string -> Option<Claims>,
                         registered: string -> bool, insertFails: bool): (o: Outcome)
    ensures o.rolledBack <==> o.result.Err?
    ensures ExtractToken(header).Err? ==> o.result == Err(InvalidHeader)
    ensures ExtractToken(header).Ok? && !JwtShapedUrlSafe(ExtractToken(header).value, decodes) ==>
      o.result == Err(InvalidTokenFormat)
    ensures o.result.Ok? && o.result.value.Some? ==>
      var claims := verify(ExtractToken(header).value);
      claims.Some? && claims.value.uid == Some(o.result.value.value.firebaseUid)
      && o.result.value.value.firebaseUid != [] && !registered(o.result.value.value.firebaseUid)
  {
    match ExtractToken(header)
    case Err(e) => Outcome(Err(e), true)
    case Ok(token) =>
      if !JwtShapedUrlSafe(token, decodes) then Outcome(Err(InvalidTokenFormat), true)
      else match verify(token)
        case None => Outcome(Err(InvalidFirebaseToken), true)
        case Some(claims) =>
          if claims.uid.None? || claims.uid.value == [] then Outcome(Err(NoUid), true)
          else if registered(claims.uid.value) then Outcome(Ok(None), false)
          else if insertFails then Outcome(Err(CreateFailed), true)
          else Outcome(Ok(Some(User(claims.uid.value, claims.email, nickname, profile))), false)
  }

  /** A header or token that fails the checks is rejected before the verifier is asked: the
      outcome does not depend on the verifier, the user table or the insert. */
  lemma RejectedBeforeVerification(header: string, nickname: Option<string>, profile: Option<string>,
                                   decodes: string -> bool, verify: string -> Option<Claims>, verify': string -> Option<Claims>,
                                   registered: string -> bool, registered': string -> bool, insertFails: bool, insertFails': bool)
    requires ExtractToken(header).Err? || !JwtShapedUrlSafe(ExtractToken(header).value, decodes)
    ensures CreateProfile(header, nickname, profile, decodes, verify, registered, insertFails) ==
            CreateProfile(header, nickname, profile, decodes, verify', registered', insertFails')
  {
  }
}
