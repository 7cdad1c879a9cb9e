/** Reading the key identifier of a token and checking the token
    (Util/JwtUtil.java). The `kid` header parameter (section 4.1.4 of
    RFC 7515) is found by scanning the decoded header text, not by parsing
    JSON; any anomaly leaves it absent. Base64url decoding (section 5 of
    RFC 4648) and signature checking are parameters. */
module JwtUtil {
  import opened Wrappers
  import opened Strings
  import opened KeyRegistry

  const KidName: string := "\"kid\""
  const KidMarker: string := "\"kid\":"
  const Quote: string := "\""

  /** A claim as the token body holds it. */
  datatype ClaimValue = Missing | Null | Str(text: string) | Arr(items: seq<ClaimValue>) | Other

  /** The claims the gateway reads: `sub`, `userId` and `role`. */
  datatype Claims = Claims(subject: Option<string>, userId: ClaimValue, role: ClaimValue)

  datatype JwtError = KeysNotLoaded | InvalidToken

  /** Base64url decoding of a segment into text; none when it is not valid. */
  type Decoder = string -> Option<string>
  /** The registry's getKey. */
  type KeyLookup = Option<string> -> Option<RsaPublicKey>
  /** Signature and expiry checking under a key; none when it fails. */
  type Verifier = (string, RsaPublicKey) -> Option<Claims>

  predicate AllTrimmable(ws: string) {
    forall j :: 0 <= j < |ws| ==> IsTrimmable(ws[j])
  }

  /** What follows the first `"kid":`, trimmed, must open with a quote;
      the kid runs up to the next quote. A missing closing quote makes the
      substring throw, which leaves the kid absent. */
  function QuotedKid(kidPart: string): (r: Option<string>)
    ensures r.Some? ==> '"' !in r.value
  {
    var trimmed := Trim(kidPart);
    if !StartsWith(trimmed, Quote) then None
    else
      match IndexOf(trimmed, Quote, 1)
      case None => None
      case Some(q) =>
        assert forall j :: 1 <= j < q ==> trimmed[j] != '"' by {
          forall j | 1 <= j < q ensures trimmed[j] != '"' {
            assert !OccursAt(trimmed, Quote, j);
            assert trimmed[j..j + 1] == [trimmed[j]];
          }
        }
        Some(trimmed[1..q])
  }

  /** The kid found in a decoded header: the scan looks only after the
      first `"kid":`. */
  function HeaderKid(header: string): (r: Option<string>)
    ensures r.Some? ==> '"' !in r.value
  {
    if !Contains(header, KidName) then None
    else
      var parts := Split(header, KidMarker);
      if |parts| <= 1 then None else QuotedKid(parts[1])
  }

  /** The kid of a token: only its first dot-separated segment is decoded. */
  function ExtractKid(token: string, decode: Decoder): (r: Option<string>)
    ensures r.Some? ==> '"' !in r.value
    ensures r.Some? ==> (|Split(token, ".")| > 0 && decode(Split(token, ".")[0]).Some?
      && Contains(decode(Split(token, ".")[0]).value, KidName))
    ensures |Split(token, ".")| > 0 && decode(Split(token, ".")[0]).Some? ==>
      r == HeaderKid(decode(Split(token, ".")[0]).value)
  {
    var chunks := Split(token, ".");
    if |chunks| == 0 then None
    else
      match decode(chunks[0])
      case None => None
      case Some(header) => HeaderKid(header)
  }

  /** parseClaims(token). */
  function ParseClaims(token: string, decode: Decoder, lookup: KeyLookup, verify: Verifier): (r: Result<Claims, JwtError>)
    ensures r == Failure(KeysNotLoaded) <==> lookup(ExtractKid(token, decode)).None?
    ensures r.Success? ==> verify(token, lookup(ExtractKid(token, decode)).value) == Some(r.value)
    ensures lookup(ExtractKid(token, decode)).Some? ==>
      (r.Success? <==> verify(token, lookup(ExtractKid(token, decode)).value).Some?)
  {
    match lookup(ExtractKid(token, decode))
    case None => Failure(KeysNotLoaded)
    case Some(key) =>
      match verify(token, key)
      case None => Failure(InvalidToken)
      case Some(claims) => Success(claims)
  }

  /** `lookup` behaves as the registry's getKey over `cache`. */
  ghost predicate RegistryLookup(cache: map<string, RsaPublicKey>, lookup: KeyLookup) {
    forall kid: Option<string> ::
      && (kid.Some? && kid.value in cache ==> lookup(kid) == Some(cache[kid.value]))
      && (lookup(kid).None? <==> cache == map[])
      && (lookup(kid).Some? ==> lookup(kid).value in cache.Values)
  }

  // ---- Properties -------------------------------------------------------

  /** A kid read from a part sits between two quotes right after the
      part's leading whitespace. */
  lemma QuotedKidLocated(kidPart: string, kid: string)
    requires QuotedKid(kidPart) == Some(kid)
    ensures Quote + kid + Quote <= kidPart[LeadingTrimmable(kidPart)..]
  {
    var trimmed := Trim(kidPart);
    var q := IndexOf(trimmed, Quote, 1).value;
    assert trimmed[..q + 1] == Quote + kid + Quote by {
      assert StartsWith(trimmed, Quote);
      assert kid == trimmed[1..q];
      assert trimmed[0] == '"' by { assert trimmed[..1] == Quote; }
      assert trimmed[q] == '"' by { assert trimmed[q..q + 1] == Quote; }
    }
    assert trimmed <= kidPart[LeadingTrimmable(kidPart)..];
  }

  /** What String.trim cuts off in front is whitespace. */
  lemma LeadingWhitespace(s: string)
    ensures AllTrimmable(s[..LeadingTrimmable(s)])
  {
  }

  /** A prefix followed by what starts the rest is a prefix. */
  lemma PrefixThen(s: string, ws: string, x: string)
    requires ws <= s && x <= s[|ws|..]
    ensures ws + x <= s
  {
    assert s[..|ws| + |x|] == s[..|ws|] + s[|ws|..][..|x|];
  }

  /** A quoted kid at the head of a part is read back exactly. */
  lemma QuotedKidReads(kid: string, kidPart: string)
    requires '"' !in kid
    requires Quote + kid + Quote <= kidPart
    ensures QuotedKid(kidPart) == Some(kid)
  {
    var quoted := Quote + kid + Quote;
    assert kidPart[..|quoted|] == quoted;
    assert kidPart[0] == quoted[0] == '"';
    assert LeadingTrimmable(kidPart) == 0;
    assert kidPart[0..] == kidPart;
    var trimmed := Trim(kidPart);
    assert kidPart[|kid| + 1] == quoted[|kid| + 1] == '"';
    assert !IsTrimmable(kidPart[|kid| + 1]);
    assert |trimmed| >= |kid| + 2;
    assert trimmed[..|kid| + 2] == quoted;
    assert OccursAt(trimmed, Quote, |kid| + 1);
    assert forall j :: 1 <= j < |kid| + 1 ==> !OccursAt(trimmed, Quote, j) by {
      forall j | 1 <= j < |kid| + 1 ensures !OccursAt(trimmed, Quote, j) {
        assert trimmed[j] == quoted[j] == kid[j - 1];
      }
    }
    assert StartsWith(trimmed, Quote);
    assert IndexOf(trimmed, Quote, 1) == Some(|kid| + 1);
    assert trimmed[1..|kid| + 1] == kid;
  }

  /** Leading whitespace ends where the first other character stands. */
  lemma {:induction false} LeadingOfWs(ws: string, rest: string)
    requires AllTrimmable(ws) && rest != [] && !IsTrimmable(rest[0])
    ensures LeadingTrimmable(ws + rest) == |ws|
    decreases |ws|
  {
    if ws == [] {
      assert ws + rest == rest;
    } else {
      assert IsTrimmable((ws + rest)[0]) by { assert (ws + rest)[0] == ws[0]; }
      assert (ws + rest)[1..] == ws[1..] + rest;
      LeadingOfWs(ws[1..], rest);
    }
  }

  /** A quoted kid after whitespace at the head of a part is read back
      exactly: the trim removes the whitespace first. */
  lemma QuotedKidReadsWs(ws: string, kid: string, kidPart: string)
    requires AllTrimmable(ws) && '"' !in kid
    requires ws + Quote + kid + Quote <= kidPart
    ensures QuotedKid(kidPart) == Some(kid)
  {
    var quoted := Quote + kid + Quote;
    var tail := kidPart[|ws|..];
    assert ws + quoted <= kidPart by {
      assert ws + Quote + kid + Quote == ws + quoted;
    }
    assert quoted <= tail by {
      assert kidPart[..|ws| + |quoted|] == ws + quoted;
      assert tail[..|quoted|] == kidPart[|ws|..|ws| + |quoted|];
    }
    assert tail[0] == '"' by { assert tail[0] == quoted[0]; }
    assert kidPart == ws + tail;
    LeadingOfWs(ws, tail);
    QuotedKidReads(kid, tail);
    assert LeadingTrimmable(tail) == 0;
    assert tail[0..] == tail;
    assert Trim(kidPart) == Trim(tail);
  }

  /** What starts the text after an occurrence of `m` at `i` follows
      that `m` in the whole text. */
  lemma PlacedAfter(h: string, i: nat, m: string, x: string)
    requires OccursAt(h, m, i) && x <= h[i + |m|..]
    ensures h[..i] + m + x <= h
  {
    assert h == h[..i] + m + h[i + |m|..];
    assert h[..i] + m + x == h[..i + |m| + |x|];
  }

  /** A split on `m` into more than one part found an `m`. */
  lemma SplitFoundMarker(header: string, m: string)
    requires |m| > 0 && |Split(header, m)| > 1
    ensures IndexOf(header, m, 0).Some?
  {
  }

  /** A text that starts a piece right after its leading whitespace sits
      after an occurrence of `m` and that whitespace. */
  lemma LocatedAfterMarker(header: string, m: string, i: nat, p1: string, quoted: string)
    requires OccursAt(header, m, i)
    requires p1 <= header[i + |m|..] && quoted <= p1[LeadingTrimmable(p1)..]
    ensures header[..i] + m + p1[..LeadingTrimmable(p1)] + quoted <= header
  {
    var ws := p1[..LeadingTrimmable(p1)];
    PrefixThen(p1, ws, quoted);
    assert ws + quoted <= header[i + |m|..];
    PlacedAfter(header, i, m, ws + quoted);
    assert header[..i] + m + (ws + quoted) == header[..i] + m + ws + quoted;
  }

  /** A kid read from the second part of a split on `m` sits, quoted,
      right after the first `m` and some whitespace. */
  lemma LocatedInSplit(header: string, m: string, kid: string, quoted: string)
    requires |m| > 0 && |Split(header, m)| > 1 && QuotedKid(Split(header, m)[1]) == Some(kid)
    requires quoted == Quote + kid + Quote
    ensures IndexOf(header, m, 0).Some?
    ensures exists ws :: (AllTrimmable(ws)
      && header[..IndexOf(header, m, 0).value] + m + ws + quoted <= header)
  {
    SplitFoundMarker(header, m);
    var i := IndexOf(header, m, 0).value;
    SecondPart(header, m, i);
    var p1 := Pieces(header[i + |m|..], m)[0];
    QuotedKidLocated(p1, kid);
    LocatedAfterMarker(header, m, i, p1, quoted);
    var ws := p1[..LeadingTrimmable(p1)];
    LeadingWhitespace(p1);
    assert AllTrimmable(ws) && header[..i] + m + ws + quoted <= header;
  }

  /** A kid found by the scan sits right after the first `"kid":` and some
      whitespace, between two quotes. */
  lemma KidLocated(header: string, kid: string)
    requires HeaderKid(header) == Some(kid)
    ensures IndexOf(header, KidMarker, 0).Some?
    ensures exists ws :: (AllTrimmable(ws)
      && header[..IndexOf(header, KidMarker, 0).value] + KidMarker + ws + (Quote + kid + Quote) <= header)
  {
    var parts := Split(header, KidMarker);
    assert |parts| > 1 && QuotedKid(parts[1]) == Some(kid);
    LocatedInSplit(header, KidMarker, kid, Quote + kid + Quote);
  }

  /** Where the parts of `pre + m + rest` sit. */
  lemma Assembled(pre: string, m: string, m2: string, rest: string)
    requires m2 <= m
    ensures (pre + m + rest)[|pre| + |m|..] == rest
    ensures OccursAt(pre + m + rest, m, |pre|) && OccursAt(pre + m + rest, m2, |pre|)
  {
    var h := pre + m + rest;
    assert h[|pre|..|pre| + |m|] == m;
    assert h[|pre|..|pre| + |m2|] == m[..|m2|];
  }

  /** The head of a piece that no separator cuts short. */
  lemma FirstPieceKeeps(rest: string, sep: string, head: string)
    requires |sep| > 0 && head <= rest
    requires forall j :: 0 <= j < |head| ==> !OccursAt(rest, sep, j)
    ensures head <= Pieces(rest, sep)[0]
  {
    match IndexOf(rest, sep, 0)
    case None =>
    case Some(k) =>
      assert |head| <= k;
      assert Pieces(rest, sep)[0] == rest[..k];
  }

  /** The scan on a header that names a kid and has a second part. */
  lemma HeaderKidOfParts(header: string)
    requires Contains(header, KidName) && |Split(header, KidMarker)| > 1
    ensures HeaderKid(header) == QuotedKid(Split(header, KidMarker)[1])
  {
  }

  /** The steps of the scan on a header with the kid in place. */
  lemma KidRoundTripSteps(pre: string, ws: string, kid: string, post: string)
    requires AllTrimmable(ws) && '"' !in kid
    requires IndexOf(pre + KidMarker + (ws + Quote + kid + Quote + post), KidMarker, 0) == Some(|pre|)
    requires forall j :: 0 <= j < |ws| + |kid| + 2 ==> !OccursAt(ws + Quote + kid + Quote + post, KidMarker, j)
    ensures var header := pre + KidMarker + (ws + Quote + kid + Quote + post);
      && Contains(header, KidName)
      && |Split(header, KidMarker)| > 1
      && QuotedKid(Split(header, KidMarker)[1]) == Some(kid)
  {
    var rest := ws + Quote + kid + Quote + post;
    var header := pre + KidMarker + rest;
    assert KidName <= KidMarker;
    Assembled(pre, KidMarker, KidName, rest);
    SecondPart(header, KidMarker, |pre|);
    FirstPieceKeeps(rest, KidMarker, ws + Quote + kid + Quote);
    QuotedKidReadsWs(ws, kid, Pieces(rest, KidMarker)[0]);
  }

  /** A header with the kid in place is read back exactly: when `"kid":`
      first occurs after `pre`, is followed by whitespace `ws` (none, or
      the blanks of a pretty-printed header) and the quoted kid, and does
      not occur again before the closing quote, the scan yields `kid`. */
  lemma KidRoundTrip(header: string, pre: string, ws: string, kid: string, post: string)
    requires header == pre + KidMarker + (ws + Quote + kid + Quote + post)
    requires AllTrimmable(ws) && '"' !in kid
    requires IndexOf(header, KidMarker, 0) == Some(|pre|)
    requires forall j :: 0 <= j < |ws| + |kid| + 2 ==> !OccursAt(ws + Quote + kid + Quote + post, KidMarker, j)
    ensures HeaderKid(header) == Some(kid)
  {
    KidRoundTripSteps(pre, ws, kid, post);
    HeaderKidOfParts(header);
  }

  /** Without `"kid":` in the header (for instance with whitespace before
      the colon) no kid is found. */
  lemma NoMarkerNoKid(header: string)
    requires !Contains(header, KidMarker)
    ensures HeaderKid(header) == None
  {
  }

  /** The pieces of a run of dots are all empty. */
  lemma {:induction false} PiecesOfDots(s: string)
    requires forall j :: 0 <= j < |s| ==> s[j] == '.'
    ensures forall p :: p in Pieces(s, ".") ==> p == ""
    decreases |s|
  {
    if s != "" {
      assert OccursAt(s, ".", 0) by { assert s[0..1] == "."; }
      PiecesAt(s, ".", 0, s[1..]);
      assert s[..0] == "";
      PiecesOfDots(s[1..]);
    }
  }

  /** A token made of dots alone splits into nothing, so no kid is
      found. */
  lemma AllDotsNoKid(token: string, decode: Decoder)
    requires token != "" && forall j :: 0 <= j < |token| ==> token[j] == '.'
    ensures ExtractKid(token, decode) == None
  {
    assert OccursAt(token, ".", 0) by { assert token[0..1] == "."; }
    PiecesOfDots(token);
    var ps := Pieces(token, ".");
    assert forall i :: 0 <= i < |ps| ==> ps[i] == "" by {
      forall i | 0 <= i < |ps| ensures ps[i] == "" {
        assert ps[i] in ps;
      }
    }
    DropAllEmpty(ps);
  }

  /** Only the first segment matters: whatever follows the first dot, the
      kid is the one of that segment alone. */
  lemma FirstSegmentDecides(segment: string, rest: string, decode: Decoder)
    requires segment != "" && '.' !in segment
    ensures ExtractKid(segment + "." + rest, decode) == ExtractKid(segment, decode)
  {
    var token := segment + "." + rest;
    assert IndexOf(token, ".", 0) == Some(|segment|) by {
      forall j | 0 <= j < |segment| ensures !OccursAt(token, ".", j) {
        assert token[j] == segment[j];
        assert segment[j] in segment;
      }
      assert OccursAt(token, ".", |segment|) by { assert token[|segment|..|segment| + 1] == "."; }
    }
    assert token[..|segment|] == segment;
    FirstPart(token, ".", |segment|);
    WholePart(segment, ".");
  }

  /** Under the registry's lookup, parsing fails with keys-not-loaded
      exactly when the cache is empty. */
  lemma KeysNotLoadedIffEmptyCache(cache: map<string, RsaPublicKey>, lookup: KeyLookup,
                                   token: string, decode: Decoder, verify: Verifier)
    requires RegistryLookup(cache, lookup)
    ensures ParseClaims(token, decode, lookup, verify) == Failure(KeysNotLoaded) <==> cache == map[]
  {
  }

  /** With the token's kid in the cache, verification uses that kid's key. */
  lemma KnownKidSelectsItsKey(cache: map<string, RsaPublicKey>, lookup: KeyLookup,
                              token: string, decode: Decoder, verify: Verifier)
    requires RegistryLookup(cache, lookup)
    requires ExtractKid(token, decode).Some? && ExtractKid(token, decode).value in cache
    ensures ParseClaims(token, decode, lookup, verify)
      == (match verify(token, cache[ExtractKid(token, decode).value])
          case None => Failure(InvalidToken)
          case Some(claims) => Success(claims))
  {
  }

  /** Once the registry holds a key, every token, whatever its kid, is
      handed to the verifier with one of the cached keys (the kid's own,
      or the fallback), and parsing succeeds exactly when that key
      verifies the token. */
  lemma CachedKeyDecides(cache: map<string, RsaPublicKey>, lookup: KeyLookup,
                         token: string, decode: Decoder, verify: Verifier)
    requires RegistryLookup(cache, lookup) && cache != map[]
    ensures lookup(ExtractKid(token, decode)).Some?
    ensures lookup(ExtractKid(token, decode)).value in cache.Values
    ensures ParseClaims(token, decode, lookup, verify).Success?
      <==> verify(token, lookup(ExtractKid(token, decode)).value).Some?
  {
    var kid := ExtractKid(token, decode);
    assert lookup(kid).None? <==> cache == map[];
  }
}
