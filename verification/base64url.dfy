/** The step from standard base64 text (RFC 4648, section 4) to the URL-safe
    alphabet without padding (RFC 4648, section 5), as the controller writes
    it twice: inline in the token check and as its `base64url_encode` helper.
    Both start from the output of `base64_encode`, which is a parameter of
    the model; this module only transforms that text. */
module Base64Url {
  import opened Php

  /** A character of the standard base64 alphabet (padding excluded). */
  predicate IsStdChar(c: char)
  {
    ('A' <= c <= 'Z') || ('a' <= c <= 'z') || ('0' <= c <= '9') || c == '+' || c == '/'
  }

  /** A character of the URL-safe base64 alphabet. */
  predicate IsUrlChar(c: char)
  {
    ('A' <= c <= 'Z') || ('a' <= c <= 'z') || ('0' <= c <= '9') || c == '-' || c == '_'
  }

  /** Well-formed standard base64 text: whole quads, alphabet characters,
      then at most two `=` of padding. */
  predicate IsBase64Text(s: string)
  {
    var body := RTrim(s, '=');
    && |s| % 4 == 0
    && |s| - |body| <= 2
    && forall i :: 0 <= i < |body| ==> IsStdChar(body[i])
  }

  /** `str_replace(['+', '/'], ['-', '_'], $s)`: the two replacements in turn. */
  function UrlSafe(s: string): (r: string)
    ensures |r| == |s|
    ensures forall i :: 0 <= i < |s| ==> r[i] == Translate(s[i])
  {
    ReplaceChar(ReplaceChar(s, '+', '-'), '/', '_')
  }

  /** The one-character translation table of `strtr($s, '+/', '-_')`. */
  function Translate(c: char): char
  {
    if c == '+' then '-' else if c == '/' then '_' else c
  }

  /** `strtr($s, '+/', '-_')`. */
  function Strtr(s: string): (r: string)
    ensures |r| == |s| && '+' !in r && '/' !in r
    ensures forall i :: 0 <= i < |s| && s[i] != '+' && s[i] != '/' ==> r[i] == s[i]
  {
    seq(|s|, i requires 0 <= i < |s| => Translate(s[i]))
  }

  /** The token check's inline transform: replace, then `rtrim($urlSafe, '=')`. */
  function Encode(b64: string): (r: string)
    ensures '+' !in r && '/' !in r
    ensures |r| == |RTrim(b64, '=')|
    ensures IsBase64Text(b64) ==> forall i :: 0 <= i < |r| ==> IsUrlChar(r[i])
  {
    RTrimUrlSafe(b64);
    RTrim(UrlSafe(b64), '=')
  }

  /** The `base64url_encode` helper, applied to the output of `base64_encode`. */
  function EncodeHelper(b64: string): (r: string)
    ensures '+' !in r && '/' !in r
    ensures |r| == |RTrim(b64, '=')|
  {
    assert Strtr(b64) == UrlSafe(b64);
    RTrimUrlSafe(b64);
    RTrim(Strtr(b64), '=')
  }

  /** `n` padding characters. */
  function Padding(n: nat): string
  {
    seq(n, _ => '=')
  }

  /** The inverse transform: back to the standard alphabet, padding restored. */
  function Decode(u: string): string
  {
    var std := seq(|u|, i requires 0 <= i < |u| => if u[i] == '-' then '+' else if u[i] == '_' then '/' else u[i]);
    std + Padding((4 - |u| % 4) % 4)
  }

  /** The inline code and the helper compute the same function. */
  lemma InlineMatchesHelper(b64: string)
    ensures Encode(b64) == EncodeHelper(b64)
  {
    assert UrlSafe(b64) == Strtr(b64);
  }

  /** `RTrim` is the only prefix with its three defining properties. */
  lemma RTrimUnique(s: string, c: char, r: string)
    requires |r| <= |s| && r == s[..|r|]
    requires |r| == 0 || r[|r| - 1] != c
    requires forall i :: |r| <= i < |s| ==> s[i] == c
    ensures RTrim(s, c) == r
  {
    var t := RTrim(s, c);
    assert |t| == |r|;
  }

  /** Replacing `+` and `/` does not touch the padding, so it commutes with trimming. */
  lemma RTrimUrlSafe(s: string)
    ensures RTrim(UrlSafe(s), '=') == UrlSafe(RTrim(s, '='))
    ensures '+' !in UrlSafe(s) && '/' !in UrlSafe(s)
  {
    var t := RTrim(s, '=');
    var u := UrlSafe(s);
    assert UrlSafe(t) == u[..|t|];
    RTrimUnique(u, '=', UrlSafe(t));
  }

  /** Standard base64 text survives the round trip through the URL-safe form. */
  lemma DecodeEncode(b64: string)
    requires IsBase64Text(b64)
    ensures Decode(Encode(b64)) == b64
  {
    var body := RTrim(b64, '=');
    var u := UrlSafe(body);
    calc {
      Decode(Encode(b64));
      { RTrimUrlSafe(b64); }
      Decode(u);
      { DecodeStdPart(u, body); }
      body + Padding((4 - |u| % 4) % 4);
      { PadLength(|body|, |b64| - |body|); }
      body + Padding(|b64| - |body|);
      { PaddingIsTrimmed(b64, body); }
      b64;
    }
  }

  /** Text is its trimmed prefix followed by the `=` that were trimmed. */
  lemma PaddingIsTrimmed(s: string, body: string)
    requires body == RTrim(s, '=')
    ensures s == body + Padding(|s| - |body|)
  {
    var tail := s[|body|..];
    var pads := Padding(|s| - |body|);
    assert |tail| == |pads|;
    forall i | 0 <= i < |tail|
      ensures tail[i] == pads[i]
    {
      assert tail[i] == s[|body| + i];
    }
    assert tail == pads;
    assert s == body + tail;
  }

  /** The padding `Decode` restores is the padding that was trimmed. */
  lemma PadLength(n: nat, k: nat)
    requires (n + k) % 4 == 0 && k <= 2
    ensures (4 - n % 4) % 4 == k
  {
  }

  /** Mapping the URL-safe form back gives the standard text it came from. */
  lemma DecodeStdPart(u: string, body: string)
    requires u == UrlSafe(body)
    requires forall i :: 0 <= i < |body| ==> IsStdChar(body[i])
    ensures Decode(u)[..|u|] == body
    ensures Decode(u) == body + Padding((4 - |u| % 4) % 4)
  {
  }

  /** URL-safe text of a length base64 can produce survives the round trip
      through the standard form. */
  lemma EncodeDecode(u: string)
    requires forall i :: 0 <= i < |u| ==> IsUrlChar(u[i])
    requires |u| % 4 != 1
    ensures Encode(Decode(u)) == u
  {
    var d := Decode(u);
    var std := d[..|u|];
    RTrimUnique(d, '=', std);
    RTrimUrlSafe(d);
    assert UrlSafe(std) == u;
  }
}
