# HTTP transaction recording, modelled in Dafny

This project models `HttpTransactionManager.from_transaction` from
`readthedocs/integrations/models.py`: the factory that turns a Django request
and its response into the field set of a new `HttpTransaction` record (the
log entry for an incoming webhook), and the shape of that record.

The factory does three things, and each one is a pure function here:

- **Header normalisation.** It keeps the `META` (WSGI environment) items whose
  key starts with `HTTP_`, drops that prefix, applies Python's `str.title()`
  and turns every `_` into `-`. So `HTTP_CONTENT_TYPE` becomes `Content-Type`.
  `dict(...)` over the resulting pairs keeps the last value when two keys give
  the same name (`Integrations.HeaderName`, `Integrations.RequestHeaders`,
  `PyStr.Title`, `PyDict.DictOf`).
- **Body selection.** `request_body` is the request's `data` when the request
  has that attribute, and its `body` otherwise. `response_body` is the
  request's `data` when present and the response's `content` otherwise. That
  looks like a copy-paste slip, but the model keeps it as written:
  `Integrations.ResponseBodyIgnoresResponse` states the consequence.
- **Field assembly.** `status_code` is copied from the response and
  `response_headers` is `dict(resp.items())`. `source` and `related_object`
  are added only when they are not `None` (`Integrations.FromTransaction`).

Modules:

- `Wrappers` (wrappers.dfy) holds `Option`. It stands for `None` and for the
  `hasattr(req, 'data')` probe.
- `PyStr` (pystr.dfy) holds the Python string methods the factory uses, on
  ASCII: `startswith`, `s[n:]`, one-character `replace` and `title`. It also
  holds `upper`, which the factory does not call; only the reference
  `Integrations.MetaKey` described below uses it.
  `title` follows CPython's scan. A character is lower-cased when the input
  character before it is cased, and title-cased otherwise.
- `PyDict` (pydict.dfy) holds `dict(pairs)` with last-wins semantics.
- `Integrations` (integrations.dfy) holds the request, response and record
  datatypes, the factory, and the lemmas about it.

`Integrations.MetaKey` is not in the repository. It is the CGI convention
(section 4.1.18 of RFC 3875) by which the server files a header under `META`.
It serves as the inverse that the normalisation undoes, and the two
round-trip lemmas are stated against it. The same section lets a server
leave out the header fields that `CONTENT_TYPE` and `CONTENT_LENGTH` already
carry, and servers commonly file a request's `Content-Type` and
`Content-Length` only under those two keys, without the `HTTP_` prefix. The
factory then does not record them (`Integrations.RequestHeadersIgnoresNonHttp`).

## Model

| member | source | states |
|---|---|---|
| `PyStr.Lower` | readthedocs/integrations/models.py:25 | lower-case mapping: maps an upper-case letter to the lower-case letter at the same place in the alphabet, keeps casedness, never yields an upper-case letter, leaves uncased characters and lower-case letters alone |
| `PyStr.Upper` | readthedocs/integrations/models.py:25 | title/upper-case mapping: maps a lower-case letter to the upper-case letter at the same place in the alphabet, keeps casedness, never yields a lower-case letter, leaves uncased characters and upper-case letters alone, same letter as its input up to case |
| `PyStr.StartsWith` | readthedocs/integrations/models.py:27 | `s.startswith(prefix)` holds exactly when `s` is `prefix` followed by some string |
| `PyStr.SliceFrom` | readthedocs/integrations/models.py:25 | `key[5:]`: the suffix after the first n characters, empty when the key is shorter |
| `PyStr.Replace` | readthedocs/integrations/models.py:25 | `.replace('_', '-')`: same length, every `from` character becomes `to`, no `from` character left, every other character unchanged |
| `PyStr.UpperStr` | readthedocs/integrations/models.py:20-23 | `upper()` as the server applies it to header names: same length, no lower-case letter, same letters up to case |
| `PyStr.TitleFrom` | readthedocs/integrations/models.py:25 | the `title()` scan from a given "previous is cased" state keeps the length |
| `PyStr.Title` | readthedocs/integrations/models.py:25 | `title()` keeps the length |
| `PyStr.TitleAt` | readthedocs/integrations/models.py:25 | each output character is the lower-case form of the input character when the input character before it is cased, and its title-case form otherwise |
| `PyStr.TitleIsTitled` | readthedocs/integrations/models.py:25 | `title()` output obeys the title rule (no upper case after a letter, no lower case at the start or after an uncased character) and equals the input up to case |
| `PyStr.TitleUnique` | readthedocs/integrations/models.py:25 | `title()` output is the only string that obeys the title rule and equals the input up to case |
| `PyStr.TitleFixpoint` | readthedocs/integrations/models.py:25 | a string is unchanged by `title()` if and only if it obeys the title rule |
| `PyStr.TitleIdempotent` | readthedocs/integrations/models.py:25 | `title()` applied twice gives the same result as applied once |
| `PyStr.ReplaceKeepsTitled` | readthedocs/integrations/models.py:25 | replacing `_` by `-` (both uncased) keeps the title rule |
| `PyDict.DictOf` | readthedocs/integrations/models.py:24-30 | `dict(pairs)` has as keys exactly the keys of the pairs |
| `PyDict.DictOfSnoc` | readthedocs/integrations/models.py:30 | one more pair sets its key to its value and leaves the other keys as they were |
| `PyDict.DictOfLastWins` | readthedocs/integrations/models.py:24-30 | the value under a key is that of the last pair with that key (this holds for `response_headers` over `resp.items()` and, through `RequestHeadersLastWins`, for `request_headers`) |
| `PyDict.DictOfConcat` | readthedocs/integrations/models.py:30 | `dict(a + b)` is `dict(a)` overridden by `dict(b)` |
| `Integrations.IsHttpKey` | readthedocs/integrations/models.py:27 | `key.startswith('HTTP_')`: the key is `HTTP_` followed by some string |
| `Integrations.HeaderName` | readthedocs/integrations/models.py:25 | a recorded header name contains no `_`, obeys the title rule, and is 5 characters shorter than its `HTTP_` key |
| `Integrations.HeaderPairs` | readthedocs/integrations/models.py:24-28 | the filtering generator over `META`. Its own contract gives only a side fact: it yields no more pairs than `META` has items. Its contents are given by `HeaderPairsMembers` and its order by `HeaderPairsConcat` |
| `Integrations.HeaderPairsMembers` | readthedocs/integrations/models.py:24-28 | every pair the generator yields is `(HeaderName(key), val)` for some `HTTP_` item `(key, val)` of `META`, and every such item yields its pair |
| `Integrations.HeaderPairsConcat` | readthedocs/integrations/models.py:24-28 | the generator keeps `META`'s order: the pairs of `a + b` are those of `a` followed by those of `b` |
| `Integrations.HeaderPairsNames` | readthedocs/integrations/models.py:24-28 | the names the generator yields are exactly the header names of the `HTTP_` keys of `META` |
| `Integrations.RequestHeaders` | readthedocs/integrations/models.py:24-28 | `request_headers`: its keys are exactly the header names of the `HTTP_` keys of `META`, in both directions; values and ignored items are given by `RequestHeadersLastWins`, `RequestHeadersIgnoresNonHttp` and `RequestHeadersSnoc` |
| `Integrations.HeaderNameIdempotent` | readthedocs/integrations/models.py:25 | normalising an already normalised header name (put back behind `HTTP_`) gives the same name |
| `Integrations.MetaKey` | readthedocs/integrations/models.py:20-23 | the server's `META` key for a header name has the `HTTP_` prefix and is 5 characters longer than the name |
| `Integrations.HeaderNameOfMetaKey` | readthedocs/integrations/models.py:20-25 | a header name comes back unchanged from its `META` key if and only if it obeys the title rule and contains no `_` |
| `Integrations.MetaKeyOfHeaderName` | readthedocs/integrations/models.py:20-25 | an `HTTP_` key with no lower-case letter and no `-` is the `META` key of its own header name |
| `Integrations.HeaderNameXTest` | readthedocs/integrations/models.py:25 | `HTTP_X_TEST` is recorded as `X-Test` |
| `Integrations.HeaderNameContentType` | readthedocs/integrations/models.py:25 | `HTTP_CONTENT_TYPE` is recorded as `Content-Type` |
| `Integrations.RequestHeadersSnoc` | readthedocs/integrations/models.py:24-28 | one more `META` item sets its header name to its value if its key starts with `HTTP_`, and changes nothing otherwise |
| `Integrations.RequestHeaderNamesShape` | readthedocs/integrations/models.py:24-28 | every key of `request_headers` contains no `_`, obeys the title rule, and is 5 characters shorter than some `HTTP_` key of `META` |
| `Integrations.RequestHeadersLastWins` | readthedocs/integrations/models.py:24-28 | when several `HTTP_` keys give the same header name, the last one's value is recorded |
| `Integrations.RequestHeadersIgnoresNonHttp` | readthedocs/integrations/models.py:26-27 | a `META` item whose key lacks the `HTTP_` prefix changes nothing, wherever it stands |
| `Integrations.FromTransaction` | readthedocs/integrations/models.py:16-36 | status code copied; request headers normalised from `META`; response headers `dict(resp.items())`; request body is `data` if present else `body`; response body is `data` if present else `content`; `source` and `related_object` present exactly when passed, and then equal to what was passed |
| `Integrations.FromTransactionOptionalFieldsIndependent` | readthedocs/integrations/models.py:33-36 | `source` and `related_object` affect no other field |
| `Integrations.ResponseBodyIgnoresResponse` | readthedocs/integrations/models.py:29-31 | when the request has `data`, the stored response body is that data, equal to the request body, whatever the response holds |
| `Integrations.WebhookSourceRecorded` | readthedocs/integrations/models.py:33-34 | a transaction recorded with the tag `SOURCE_WEBHOOK` (models.py:44) has source `webhook` |
| `Integrations.FromTransactionExample` | readthedocs/integrations/models.py:18-36 | header `HTTP_X_TEST: abc`, body `reqbody`, status 201, header `X-Resp: v`, no source or related object: the record holds `{X-Test: abc}`, `{X-Resp: v}`, both bodies, 201, and no source or related object |

## Left out

- `self.create(**fields)` (models.py:37) is left out. It is database I/O, so the model returns the assembled field set. As a result, what `create` does with an omitted field is not modelled either; an omitted field is `None` in the model. For `source` the store would use its empty default. For `related_object` it would have nothing to use: `content_type` and `object_id` (models.py:47-48) have no default and do not allow null, so `create` would reject a field set without `related_object`.
- The `date` field (`auto_now_add`, models.py:51) is left out. It reads the clock.
- `JSONField` serialisation of the header maps (models.py:53, 56) is left out. It belongs to a foreign library, and the model does not keep key insertion order.
- The `GenericForeignKey`/`ContentType` resolution behind `related_object` and `on_delete=CASCADE` (models.py:47-49) are left out. They are framework behaviour, so `related_object` is an opaque (content type, id) value.
- Translated labels, `max_length=64` on `source` and store-level validation (models.py:46) are left out. The factory does not enforce them.
- `PyStr.Title`: only ASCII letters are cased. Python's `str.title()` also title-cases non-ASCII letters, which the model leaves unchanged and treats as uncased.
- `Integrations.HeaderPairs`: `str(val)` is the identity, because `META` values are taken to be strings. Coercing arbitrary objects is not modelled.
- `Integrations.Request`, `Integrations.Response`: the request's `data` and `body` and the response's `content` are typed as strings. In Django `body` and `content` are bytes and a parsed `data` is usually a mapping. The factory only passes these values through, so no behaviour depends on their type.
- `hasattr(req, 'data')` duck typing is replaced by an explicit `Option` field on the request.
- `Integrations.RequestHeaders`: `META` is a Python dict, so its keys are distinct. The model accepts any sequence of pairs, and that case is included.
