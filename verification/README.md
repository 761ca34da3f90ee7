# Xaigate payment notification handler — a Dafny model

The Drupal Commerce module for the Xaigate payment provider receives a
server-to-server notification when a shopper has paid. Its controller
(`XaigateRedirectController`) checks the form-encoded body, looks up the
configured Xaigate payment gateway, verifies the signed token in the body
when the gateway has a `secret_key`, loads the order, and stores one
`completed` payment. Every failure gets the same answer: HTTP 500 with
`{"message": "Bad request"}`. Success gets HTTP 200 with
`{"status": "completed"}`.

This project models that controller as pure functions:

- `php.dfy` (module `Php`): the PHP built-ins the controller relies on,
  stated over strings. These are `empty()` on a nullable string, a missing
  array key reading as null, `substr($s, 1)`, `str_replace` of one
  character, `rtrim`, and `explode`/`implode` on one delimiter.
- `json.dfy` (module `Json`): the value `json_decode` returns, with PHP
  truthiness, `isset($value->exp)` and `$value < $int`.
- `base64url.dfy` (module `Base64Url`): the change from standard base64
  text to the URL-safe alphabet without padding (RFC 4648, sections 4
  and 5). It is modelled twice, as the inline code in `check()` and as the
  `base64url_encode` helper, and proved equal. The inverse change is
  defined and both round trips are proved.
- `token.dfy` (module `TokenCheck`): `check()`. It drops the first
  character and every `"`, splits on `.` and requires three segments. It
  decodes the payload and applies the expiry gate. It recomputes the
  signature over the still-encoded `header.payload` and compares. `Issue`
  is the provider's signing algorithm; `check()` is proved sound and
  complete against it.
- `webhook.dfy` (module `Webhook`): `index()` as a short-circuit
  pipeline returning `Rejected(reason)` or `Completed(payment)`. There is
  also a declarative `Admissible` predicate and a proved "completes iff
  admissible" lemma. A payment store (`Deliver`) shows that a replayed
  notification is stored twice.

Parameters stand in for what the model cannot see. HMAC-SHA256,
`base64_encode`, `base64_decode` and `json_decode` are fields of the
`Crypto` datatype, and so is PHP's loose `<` between a non-integer JSON
value and an integer. The gateway lookup by plugin id and the order lookup
by id are fields of `Site`, and so is `time()`, as `now`.

Two behaviours of the controller are stated as they are:

- The controller performs no duplicate check before storing a payment;
  `ReplayDuplicates` states this.
- An empty token under a configured secret is rejected with reason
  `MalformedRequest`, and every reason gets the same response.

## Model

| member | source | states |
|---|---|---|
| Php.Get | src/Controller/CryptocloudRedirectController.php:72-75 | reading a field gives its value when the key is present and null when it is missing |
| Php.DropFirst | src/Controller/CryptocloudRedirectController.php:132 | `substr($t, 1)` is what follows the first character, and "" for an empty string |
| Php.EmptyExactly | src/Controller/CryptocloudRedirectController.php:77-78 | `empty()` holds of exactly null, "" and "0" |
| Php.RemoveAll | src/Controller/CryptocloudRedirectController.php:133 | removing `"` leaves no `"`, and the length drops by the number of `"` removed |
| Php.RemoveAllKeepsOthers | src/Controller/CryptocloudRedirectController.php:133 | every character other than `"` keeps its number of occurrences |
| Php.RemoveAllAppend | src/Controller/CryptocloudRedirectController.php:133 | quote removal distributes over concatenation, so the order of the other characters is kept |
| Php.RemoveAllAbsent | src/Controller/CryptocloudRedirectController.php:133 | a string without `"` is left exactly as it was |
| Php.ReplaceChar | src/Controller/CryptocloudRedirectController.php:147 | replacement keeps the length, changes every occurrence of the needle and nothing else |
| Php.RTrim | src/Controller/CryptocloudRedirectController.php:148 | `rtrim` gives the prefix that does not end in the character, with only that character cut off |
| Php.Explode | src/Controller/CryptocloudRedirectController.php:134 | `explode` always yields at least one piece |
| Php.ImplodeExplode | src/Controller/CryptocloudRedirectController.php:134 | joining the pieces with the delimiter gives back the string |
| Php.ExplodePiecesFree | src/Controller/CryptocloudRedirectController.php:134 | no piece contains the delimiter |
| Php.ExplodeCount | src/Controller/CryptocloudRedirectController.php:134-135 | there is one more piece than there are delimiters, so three segments means exactly two dots |
| Php.ExplodeImplode | src/Controller/CryptocloudRedirectController.php:134 | delimiter-free pieces joined and exploded come back unchanged |
| Json.Truthy | src/Controller/CryptocloudRedirectController.php:141 | `!$payloadData` holds exactly of null, false, 0, "", "0" and the empty array; every object is truthy |
| Json.LessThan | src/Controller/CryptocloudRedirectController.php:141 | for an integer `exp`, `exp < time()` holds exactly when `exp` is below `now`; `exp == now` is not less |
| Json.IssetOnlyOnObjects | src/Controller/CryptocloudRedirectController.php:141 | `isset($data->exp)` holds only for an object with a non-null `exp`, which is then truthy |
| Base64Url.UrlSafe | src/Controller/CryptocloudRedirectController.php:147 | the two replacements keep the length and map each character by the table `+`→`-`, `/`→`_`, every other character unchanged |
| Base64Url.Strtr | src/Controller/CryptocloudRedirectController.php:163 | `strtr` keeps the length, leaves no `+` or `/`, and leaves every other character unchanged |
| Base64Url.EncodeHelper | src/Controller/CryptocloudRedirectController.php:162-164 | the helper's output has no `+` or `/` and keeps the length of the base64 text minus its trailing `=` |
| Base64Url.Encode | src/Controller/CryptocloudRedirectController.php:146-148 | the output keeps the length of the base64 text minus its trailing `=`, has no `+` or `/`, and for well-formed base64 uses only the URL-safe alphabet (so no `=`) |
| Base64Url.InlineMatchesHelper | src/Controller/CryptocloudRedirectController.php:146-164 | the inline `str_replace` plus `rtrim` and the helper's `strtr` plus `rtrim` compute the same function |
| Base64Url.RTrimUrlSafe | src/Controller/CryptocloudRedirectController.php:147-148 | the alphabet change does not touch padding, so it commutes with trimming |
| Base64Url.DecodeEncode | src/Controller/CryptocloudRedirectController.php:146-148 | well-formed standard base64 survives the round trip through the URL-safe form |
| Base64Url.EncodeDecode | src/Controller/CryptocloudRedirectController.php:146-148 | URL-safe text of a length base64 can produce survives the round trip through the standard form |
| TokenCheck.Normalize | src/Controller/CryptocloudRedirectController.php:132-133 | the normalised token has no `"`, and its length is the original minus one minus the `"` after the first character |
| TokenCheck.NormalizeKeepsOthers | src/Controller/CryptocloudRedirectController.php:132-133 | normalisation drops exactly the first character and the quotes; every other character keeps its count |
| TokenCheck.NormalizeQuoteFree | src/Controller/CryptocloudRedirectController.php:132-133 | a token whose tail has no quotes loses only its first character |
| TokenCheck.Claims | src/Controller/CryptocloudRedirectController.php:138-140 | the payload is base64-decoded and then JSON-decoded; a failed base64 decode reaches `json_decode` as the empty string |
| TokenCheck.Unexpired | src/Controller/CryptocloudRedirectController.php:141 | a payload that passes the expiry gate decodes to an object with a non-null `exp`; for an object with an integer `exp` it passes exactly when `exp >= now`, so `exp == now` is accepted |
| TokenCheck.Signature | src/Controller/CryptocloudRedirectController.php:144-148 | the recomputed signature has no `+` or `/`, is as long as the base64 of the MAC over the encoded `header.payload` without its trailing `=`, and decodes back to that base64 text when it is well formed |
| TokenCheck.Check | src/Controller/CryptocloudRedirectController.php:131-151 | an accepted token has exactly two dots after normalisation, three segments, and a truthy payload with an unexpired `exp` |
| TokenCheck.SignatureIsPlain | src/Controller/CryptocloudRedirectController.php:144-148 | a signature computed from well-formed base64 contains neither `.` nor `"` |
| TokenCheck.IssueSegments | src/Controller/CryptocloudRedirectController.php:134-139 | a token issued for dot-free header and payload splits back into header, payload and signature |
| TokenCheck.CheckSound | src/Controller/CryptocloudRedirectController.php:134-150 | every accepted token is, once normalised, the token issued over its own still-encoded header and payload, and the payload is unexpired |
| TokenCheck.ThreePieces | src/Controller/CryptocloudRedirectController.php:134-137 | a string that explodes into three pieces is those pieces joined by two dots |
| TokenCheck.CheckComplete | src/Controller/CryptocloudRedirectController.php:131-150 | any token that normalises to an issued token with an unexpired payload is accepted |
| TokenCheck.NormalizeWrap | src/Controller/CryptocloudRedirectController.php:132-133 | normalisation undoes the provider's wrapping (a stray character, then the token in double quotes) of a quote-free token |
| TokenCheck.QuotedTokenVerifies | src/Controller/CryptocloudRedirectController.php:132-150 | the provider's wrapping around an issued token with an unexpired payload is accepted |
| TokenCheck.SignatureDetermined | src/Controller/CryptocloudRedirectController.php:144-150 | for a given header and payload only one signature segment is accepted |
| TokenCheck.TamperedSignatureFails | src/Controller/CryptocloudRedirectController.php:150 | changing the signature segment of an accepted token makes it fail |
| TokenCheck.ExpiredFails | src/Controller/CryptocloudRedirectController.php:138-143 | an integer `exp` before `now` fails the check whatever the signature |
| TokenCheck.UnreadablePayloadFails | src/Controller/CryptocloudRedirectController.php:138-142 | a payload that does not decode to truthy data with a non-null `exp` fails the check whatever the signature |
| TokenCheck.WrongSegmentCountFails | src/Controller/CryptocloudRedirectController.php:134-137 | a normalised token without exactly two dots fails |
| Webhook.Index | src/Controller/CryptocloudRedirectController.php:67-118 | empty body, empty or missing fields, or a status other than `success` are rejected; so are no gateway (whatever the token), an empty or failing token under a non-empty secret, and an unknown order; a completion carries state `completed`, the order's balance, the gateway id, the order id and `invoice_id` |
| Webhook.FirstGateway | src/Controller/CryptocloudRedirectController.php:81-89 | the gateway used is the first one the lookup by plugin `xaigate_offsite_redirect` returns, and none exactly when the lookup is empty |
| Webhook.Respond | src/Controller/CryptocloudRedirectController.php:70-117 | the answer is 200 exactly for a completion, with body `{"status": "completed"}`; every rejection answers 500 `{"message": "Bad request"}` |
| Webhook.IndexCompletesIff | src/Controller/CryptocloudRedirectController.php:67-114 | the pipeline completes exactly when the declarative admissibility conditions hold, with the record the controller builds |
| Webhook.TokenIgnoredWithoutSecret | src/Controller/CryptocloudRedirectController.php:92-99 | with an empty `secret_key` the outcome is the same for every token and for no token |
| Webhook.RejectionsIndistinguishable | src/Controller/CryptocloudRedirectController.php:69-104 | every rejection reason produces the same 500 "Bad request" response |
| Webhook.Deliver | src/Controller/CryptocloudRedirectController.php:107-117 | an admissible notification appends exactly the payment `index()` builds and answers 200 `{"status": "completed"}`; any other leaves the stored payments unchanged and answers 500 "Bad request" |
| Webhook.ReplayDuplicates | src/Controller/CryptocloudRedirectController.php:107-117 | delivering the same admissible notification twice stores two identical completed payments carrying `invoice_id` |

## Left out

- PHP strings are byte strings; the model uses `string`, with one character standing for one byte. Multi-byte text is not modelled.
- `json_decode` turns integers beyond 64 bits into floats; `JInt` is unbounded, so that conversion is not modelled.
- `parse_str` of the raw body is not modelled. `Index` takes the parsed body as a map from field names to strings. Array-valued fields such as `token[]=…` are left out.
- HMAC-SHA256, `base64_encode`, `base64_decode` and `json_decode` are parameters. The constant-time property of `hash_equals` is not modelled; it is plain equality here.
- PHP's loose `<` between a non-integer `exp` (string, boolean, array, object) and `time()` is a parameter (`looseLess`). Floating-point JSON numbers are not represented.
- Rejection of a token whose header or payload was altered is not proved. It rests on HMAC collision resistance, which is not stated of the abstract `hmacSha256`. Only an altered signature segment is proved to fail.
- The gateway and order lookups are fixed functions. Saving a payment does not change the order balance the next lookup returns, so `ReplayDuplicates` gives both records the same amount.
- When several gateways use the Xaigate plugin, the model takes the first one in lookup order, as `reset()` does. The storage order itself is not modelled.
- Persistence failure of `$payment->save()` and concurrent delivery of notifications are left out. They are database and runtime behaviour.
- Dependency injection and routing (`__construct`, `create`) are framework plumbing and are left out.
- The invoice-creation form (`src/PluginForm/OffsiteRedirect/XaigateOffsiteForm.php`) is left out. It is an outbound HTTP call with a currency whitelist.
- The gateway plugin (`src/Plugin/Commerce/PaymentGateway/XaigateOffsiteRedirect.php`) is left out. It holds configuration form fields and `onReturn`, which stores a `draft` payment.
- The status test `$status != 'success'` is modelled as string inequality. PHP's loose comparison only differs from it when both sides are numeric strings, and `'success'` is not numeric.
