/** The controller's `check()`: the signed token carried in a notification is
    normalised, split into header, payload and signature, its payload's `exp`
    claim is compared with the current time, and the signature is recomputed
    as the URL-safe base64 of HMAC-SHA256 over the still-encoded
    `header.payload`. The cryptographic and decoding primitives are
    parameters; the string handling around them is modelled exactly. */
module TokenCheck {
  import opened Php
  import opened Json
  import Base64Url

  /** The library calls `check()` makes, as total functions. */
  datatype Crypto = Crypto(
    /** `hash_hmac('sha256', $data, $key, true)`: (data, key) to the raw MAC. */
    hmacSha256: (string, string) -> string,
    /** `base64_encode`. */
    base64Encode: string -> string,
    /** `base64_decode` in its lenient mode; `None` stands for `false`. */
    base64Decode: string -> Option<string>,
    /** `json_decode` without the associative flag; malformed input gives `JNull`. */
    jsonDecode: string -> Json,
    /** PHP `<` between a non-integer JSON value and an integer. */
    looseLess: (Json, int) -> bool)

  /** The token as the provider sends it carries one stray leading character
      and may be wrapped in double quotes: the first character is dropped, and
      so is every `"` anywhere in the rest. */
  function Normalize(token: string): (r: string)
    ensures '"' !in r
    ensures |token| > 0 ==> |r| == |token| - 1 - multiset(token[1..])['"']
  {
    RemoveAll('"', DropFirst(token))
  }

  /** The pieces of the normalised token between dots. */
  function Segments(token: string): seq<string>
  {
    Explode('.', Normalize(token))
  }

  /** The payload segment decoded: base64 first, then JSON; a failed base64
      decode reaches `json_decode` as the empty string. */
  function Claims(cr: Crypto, payload: string): (j: Json)
    ensures cr.base64Decode(payload) == None ==> j == cr.jsonDecode("")
    ensures cr.base64Decode(payload).Some? ==> j == cr.jsonDecode(cr.base64Decode(payload).value)
  {
    var text := match cr.base64Decode(payload) case None => "" case Some(t) => t;
    cr.jsonDecode(text)
  }

  /** The expiry gate: the decoded payload is truthy, has a non-null `exp`,
      and `exp < now` does not hold. */
  predicate Unexpired(cr: Crypto, payload: string, now: int)
    ensures Unexpired(cr, payload, now) ==>
              && Claims(cr, payload).JObject?
              && "exp" in Claims(cr, payload).fields
              && Claims(cr, payload).fields["exp"] != JNull
    ensures Unexpired(cr, payload, now) && Claims(cr, payload).fields["exp"].JInt? ==>
              Claims(cr, payload).fields["exp"].i >= now
    ensures Claims(cr, payload).JObject? && "exp" in Claims(cr, payload).fields
            && Claims(cr, payload).fields["exp"].JInt? ==>
              (Unexpired(cr, payload, now) <==> Claims(cr, payload).fields["exp"].i >= now)
  {
    var claims := Claims(cr, payload);
    && Truthy(claims)
    && Isset(claims, "exp")
    && !LessThan(Property(claims, "exp").value, now, cr.looseLess)
  }

  /** The signature the provider attaches: URL-safe unpadded base64 of the
      HMAC-SHA256 of the encoded header and payload joined by a dot. */
  function Signature(cr: Crypto, key: string, header: string, payload: string): (sig: string)
    ensures '+' !in sig && '/' !in sig
    ensures |sig| == |RTrim(cr.base64Encode(cr.hmacSha256(header + "." + payload, key)), '=')|
    ensures Base64Url.IsBase64Text(cr.base64Encode(cr.hmacSha256(header + "." + payload, key))) ==>
              Base64Url.Decode(sig) == cr.base64Encode(cr.hmacSha256(header + "." + payload, key))
  {
    var b := cr.base64Encode(cr.hmacSha256(header + "." + payload, key));
    assert Base64Url.IsBase64Text(b) ==> Base64Url.Decode(Base64Url.Encode(b)) == b by {
      if Base64Url.IsBase64Text(b) {
        Base64Url.DecodeEncode(b);
      }
    }
    Base64Url.Encode(b)
  }

  /** The token the provider's signing algorithm produces for a header and a
      payload (before it is wrapped). */
  function Issue(cr: Crypto, key: string, header: string, payload: string): string
  {
    header + "." + payload + "." + Signature(cr, key, header, payload)
  }

  /** `check($token, $secretKey)` at time `now`. */
  predicate Check(cr: Crypto, token: string, key: string, now: int)
    ensures Check(cr, token, key, now) ==> multiset(Normalize(token))['.'] == 2
    ensures Check(cr, token, key, now) ==> |Segments(token)| == 3 && Unexpired(cr, Segments(token)[1], now)
  {
    var parts := Segments(token);
    ExplodeCount('.', Normalize(token));
    if |parts| != 3 then false
    else if !Unexpired(cr, parts[1], now) then false
    else Signature(cr, key, parts[0], parts[1]) == parts[2]
  }

  /** Normalisation drops exactly the first character and the quotes: every
      other character keeps its count, in the same order. */
  lemma NormalizeKeepsOthers(c: char, w: string, d: char)
    requires d != '"'
    ensures Normalize([c] + w) == RemoveAll('"', w)
    ensures multiset(Normalize([c] + w))[d] == multiset(w)[d]
  {
    assert ([c] + w)[1..] == w;
    RemoveAllKeepsOthers('"', w, d);
  }

  /** Normalising a token whose tail has no quotes just drops the first character. */
  lemma NormalizeQuoteFree(c: char, w: string)
    requires '"' !in w
    ensures Normalize([c] + w) == w
  {
    assert ([c] + w)[1..] == w;
    RemoveAllAbsent('"', w);
  }

  /** A signature computed from well-formed base64 contains neither a dot nor a quote. */
  lemma SignatureIsPlain(cr: Crypto, key: string, header: string, payload: string)
    requires Base64Url.IsBase64Text(cr.base64Encode(cr.hmacSha256(header + "." + payload, key)))
    ensures '.' !in Signature(cr, key, header, payload)
    ensures '"' !in Signature(cr, key, header, payload)
  {
    var sig := Signature(cr, key, header, payload);
    forall i | 0 <= i < |sig|
      ensures sig[i] != '.' && sig[i] != '"'
    {
      assert Base64Url.IsUrlChar(sig[i]);
    }
  }

  /** An issued token explodes into its header, payload and signature. */
  lemma IssueSegments(cr: Crypto, key: string, header: string, payload: string)
    requires '.' !in header && '.' !in payload
    requires '.' !in Signature(cr, key, header, payload)
    ensures Explode('.', Issue(cr, key, header, payload)) == [header, payload, Signature(cr, key, header, payload)]
  {
    var parts := [header, payload, Signature(cr, key, header, payload)];
    assert Implode('.', parts[2..]) == parts[2];
    assert Implode('.', parts) == Issue(cr, key, header, payload);
    ExplodeImplode('.', parts);
  }

  /** A string that explodes into three pieces is those pieces joined by dots. */
  lemma ThreePieces(s: string)
    requires |Explode('.', s)| == 3
    ensures var parts := Explode('.', s);
            s == parts[0] + "." + parts[1] + "." + parts[2]
  {
    var parts := Explode('.', s);
    ImplodeExplode('.', s);
    assert Implode('.', parts[2..]) == parts[2];
    assert Implode('.', parts[1..]) == parts[1] + "." + parts[2];
  }

  /** Soundness: every accepted token is, once normalised, exactly the token
      the signing algorithm issues for its own dot-free header and payload,
      and that payload is unexpired. */
  lemma CheckSound(cr: Crypto, token: string, key: string, now: int)
    requires Check(cr, token, key, now)
    ensures exists header, payload ::
              && '.' !in header && '.' !in payload
              && Normalize(token) == Issue(cr, key, header, payload)
              && Unexpired(cr, payload, now)
  {
    var n := Normalize(token);
    var parts := Explode('.', n);
    assert parts == Segments(token);
    ExplodePiecesFree('.', n);
    ThreePieces(n);
    assert parts[2] == Signature(cr, key, parts[0], parts[1]);
    assert n == Issue(cr, key, parts[0], parts[1]);
  }

  /** Completeness: a token that normalises to an issued token with an
      unexpired payload passes. */
  lemma CheckComplete(cr: Crypto, key: string, header: string, payload: string, now: int, token: string)
    requires '.' !in header && '.' !in payload
    requires Base64Url.IsBase64Text(cr.base64Encode(cr.hmacSha256(header + "." + payload, key)))
    requires Unexpired(cr, payload, now)
    requires Normalize(token) == Issue(cr, key, header, payload)
    ensures Check(cr, token, key, now)
  {
    SignatureIsPlain(cr, key, header, payload);
    IssueSegments(cr, key, header, payload);
  }

  /** The wrapping the provider applies: one stray character, then the token
      in double quotes. */
  function Wrap(c: char, token: string): string
  {
    [c] + ("\"" + token + "\"")
  }

  /** Normalisation undoes the provider's wrapping of a quote-free token. */
  lemma NormalizeWrap(c: char, token: string)
    requires '"' !in token
    ensures Normalize(Wrap(c, token)) == token
  {
    assert Wrap(c, token)[1..] == "\"" + token + "\"";
    RemoveAllAbsent('"', token);
    RemoveAllAppend('"', "\"", token);
    RemoveAllAppend('"', "\"" + token, "\"");
    assert RemoveAll('"', "\"") == "";
  }

  /** The provider's usual wrapping around a correctly issued token for an
      unexpired payload is accepted. */
  lemma QuotedTokenVerifies(cr: Crypto, key: string, header: string, payload: string, now: int, c: char)
    requires '.' !in header && '.' !in payload && '"' !in header && '"' !in payload
    requires Base64Url.IsBase64Text(cr.base64Encode(cr.hmacSha256(header + "." + payload, key)))
    requires Unexpired(cr, payload, now)
    ensures Check(cr, Wrap(c, Issue(cr, key, header, payload)), key, now)
  {
    var inner := Issue(cr, key, header, payload);
    var sig := Signature(cr, key, header, payload);
    SignatureIsPlain(cr, key, header, payload);
    assert '"' !in inner by {
      assert inner == header + "." + payload + "." + sig;
    }
    NormalizeWrap(c, inner);
    CheckComplete(cr, key, header, payload, now, Wrap(c, inner));
  }

  /** For a given header and payload exactly one signature is accepted:
      two accepted tokens that agree on them normalise to the same text. */
  lemma SignatureDetermined(cr: Crypto, t1: string, t2: string, key: string, now: int)
    requires Check(cr, t1, key, now) && Check(cr, t2, key, now)
    requires Segments(t1)[0] == Segments(t2)[0] && Segments(t1)[1] == Segments(t2)[1]
    ensures Normalize(t1) == Normalize(t2)
  {
    var n1, n2 := Normalize(t1), Normalize(t2);
    var p1, p2 := Explode('.', n1), Explode('.', n2);
    assert p1 == Segments(t1) && p2 == Segments(t2);
    assert p1[2] == Signature(cr, key, p1[0], p1[1]);
    assert p2[2] == Signature(cr, key, p2[0], p2[1]);
    ThreePieces(n1);
    ThreePieces(n2);
  }

  /** Changing the signature segment of an accepted token makes it fail. */
  lemma TamperedSignatureFails(cr: Crypto, t1: string, t2: string, key: string, now: int)
    requires Check(cr, t1, key, now)
    requires |Segments(t2)| == 3
    requires Segments(t1)[0] == Segments(t2)[0] && Segments(t1)[1] == Segments(t2)[1]
    requires Segments(t1)[2] != Segments(t2)[2]
    ensures !Check(cr, t2, key, now)
  {
  }

  /** An expired integer `exp` fails the check, whatever the signature. */
  lemma ExpiredFails(cr: Crypto, token: string, key: string, now: int, exp: int)
    requires |Segments(token)| == 3
    requires Property(Claims(cr, Segments(token)[1]), "exp") == Some(JInt(exp))
    requires exp < now
    ensures !Check(cr, token, key, now)
  {
  }

  /** A payload that does not decode to truthy data with a non-null `exp`
      fails the check, whatever the signature. */
  lemma UnreadablePayloadFails(cr: Crypto, token: string, key: string, now: int)
    requires |Segments(token)| == 3
    requires !Truthy(Claims(cr, Segments(token)[1])) || !Isset(Claims(cr, Segments(token)[1]), "exp")
    ensures !Check(cr, token, key, now)
  {
  }

  /** A token whose normalised form does not have exactly two dots fails. */
  lemma WrongSegmentCountFails(cr: Crypto, token: string, key: string, now: int)
    requires multiset(Normalize(token))['.'] != 2
    ensures !Check(cr, token, key, now)
  {
  }
}
