# MovieBox upstream client and CDN link rewriter, in Dafny

This project models two parts of the MovieBox web front end.

The first is the upstream client of `lib/moviebox-client.ts`:
- the process-wide cookie store with its `Set-Cookie` parser and `Cookie` header writer;
- the mirror hosts and the order in which they are tried;
- the default and per-attempt request headers;
- the `{code, message, data}` envelope check;
- the HTML diagnostic snippet;
- the URL helpers (`getAbsoluteUrl`, `replaceHostInUrl`, the `searchParams` loops);
- `MovieBoxClient`: the one-shot session bootstrap, the mirror fallback loop of `getWithCookies`, `getWithCookiesFromApi`, `get`, `getFromApi`, `post`, `postToApi`, and every endpoint wrapper as a fixed path and parameter map.

The second is the link rewriter of `lib/proxy-helper.ts`:
- `proxyUrl` builds `<origin>/api/proxy?url=<encodeURIComponent(url)>`;
- `proxyUrls` rewrites the links in a JSON tree.

Modules, one per file:

| file | module | what it holds |
|---|---|---|
| `wrappers.dfy` | `Wrappers` | `Option` and `Result` |
| `text.dfy` | `Text` | JavaScript white space, `trim`, `startsWith`, `includes`, `indexOf`, `split`, `join`, ASCII and `toLowerCase` folding |
| `js_value.dfy` | `JsValue` | JSON-like values, property reads, truthiness, `String(v)` |
| `percent.dfy` | `Percent` | UTF-8, `encodeURIComponent`/`decodeURIComponent`, form encoding of `searchParams`, the URL parser's percent-encode sets |
| `urls.dfy` | `Urls` | a URL record with a parser and serializer for absolute `scheme://host[:port]/path?query#fragment`; `hostname`/`port` setters, resolution of a reference against a host root, `searchParams.set`/`append` |
| `cookies.dfy` | `Cookies` | the `Set-Cookie` splitting heuristic, the store (`CookieJar` class), `buildCookieHeader` |
| `html_snippet.dfy` | `HtmlSnippet` | `extractHtmlSnippet` |
| `upstream.dfy` | `Upstream` | hosts, headers, requests and responses, the errors, the envelope, the URL helpers, body classification, endpoint plans |
| `client.dfy` | `ApiClient` | the network (`Network` class), client state, the fallback loop, the specifications of each call, and the `Client` class |
| `proxy.dfy` | `ProxyHelper` | `proxyUrl`, `proxyUrls` |

How the client is modelled:
- Each method of `ApiClient.Client` is proved equal to a function of the state it starts from (`GetWithCookiesSpec`, `PostSpec`, ...). The state is the bootstrap flag, the cookie store and the log of requests sent.
- The properties of the client are lemmas about those functions.
- `fetch` is the `Network` class. It records every request, and answers each from a server function of the request and of how many requests came before it.
- The cookie store is one `CookieJar` object shared by every client, as the module-level `globalCookieStore` is.
- Errors are values. Those the client raises itself keep the parts their message is built from, and `Message` renders them.

Notes on the code's behaviour:
- There is no retry, backoff or timeout anywhere in the code.
- A non-2xx answer is never parsed as JSON. In `getWithCookies` it becomes a host error carrying the HTML snippet.
- The bootstrap stores cookies from any answer, not only a successful one.
- `getWithCookiesFromApi` checks the envelope only when both `code` and `message` are defined. A rejected envelope there surfaces as the "invalid JSON response" error, because the `catch` swallows the envelope's own error.
- When every host fails, the error of the last host is thrown, not one that lists every attempt. The "All MovieBox hosts attempted" error is unreachable (`ApiClient.GetWithCookiesFailure`).

## Model

| member | source | states |
|---|---|---|
| Text.TrimStart | lib/moviebox-client.ts:88 | the result is no longer than the input, does not start with white space, and is the input itself when that does not start with white space |
| Text.TrimStartSplits | lib/moviebox-client.ts:88 | trimming the start removes exactly a prefix made only of white space |
| Text.TrimEnd | lib/moviebox-client.ts:88 | the result does not end with white space, and is the input when that does not end with white space |
| Text.TrimEndSplits | lib/moviebox-client.ts:88 | trimming the end removes exactly a suffix made only of white space |
| Text.Trim | lib/moviebox-client.ts:88 | `trim()`: no white space at either end; a first character that is not white space is kept |
| Text.TrimmedIsFixed | lib/moviebox-client.ts:88 | a text without white space at its ends is its own trim |
| Text.TrimAbsent | lib/moviebox-client.ts:94-95 | trimming adds no character that was absent |
| Text.ContainsIff | lib/proxy-helper.ts:52-53 | `includes` holds exactly when the word occurs at some position |
| Text.IndexOf | lib/moviebox-client.ts:92 | `indexOf`: -1 exactly when the character is absent; otherwise that character is at the result and not before it |
| Text.IndexOfConcat | lib/moviebox-client.ts:92 | the first occurrence in `a + b`, when `a` lacks the character, is in `b`, shifted by the length of `a` |
| Text.Take | lib/moviebox-client.ts:78 | `slice(0, n)`: a prefix of at most `n` characters, the whole text when it is shorter |
| Text.CutAt | lib/moviebox-client.ts:91 | the text before the first occurrence of `c`, which holds no `c`, plus the rest after it; the input is their join |
| Text.CutAtJoin | lib/moviebox-client.ts:91 | cutting a join at its separator gives back the parts (the inverse of the join) |
| Text.SplitOn | lib/moviebox-client.ts:91 | `split(c)`: at least one piece, and no piece holds `c` |
| Text.SplitOnAbsent | lib/moviebox-client.ts:91 | a text without `c` splits into itself alone |
| Text.SplitOnFirst | lib/moviebox-client.ts:91 | splitting `head + c + tail` gives `head` and then the pieces of `tail` |
| Text.SplitJoin | lib/moviebox-client.ts:225 | splitting a join at a one-character separator that no part holds gives back the parts |
| Text.Join | lib/moviebox-client.ts:107 | `join`: an empty list gives "", a single piece gives that piece |
| Text.JoinCons | lib/moviebox-client.ts:107 | joining `a` before a non-empty list puts one separator between them |
| Text.LowerAscii | lib/moviebox-client.ts:74 | vocabulary for `Urls.LowerHostValid`: ASCII case folding, character by character, keeping the length |
| Text.LowerForMatch | lib/proxy-helper.ts:52-53 | on a single character, `toLowerCase()` as far as matching "url"/"link" can tell: ASCII folding, with KELVIN SIGN becoming `k` |
| Text.LowerForMatchString | lib/proxy-helper.ts:52-53 | `toLowerCase()` as far as matching "url"/"link" can tell, character by character |
| Text.LowerForMatchOfLower | lib/proxy-helper.ts:52-53 | a lower-case ASCII key is its own lower case |
| JsValue.Lookup | lib/moviebox-client.ts:56 | the value of the first entry with the key, and None exactly when the key is absent |
| JsValue.Read | lib/moviebox-client.ts:56 | a property read: None exactly for `null`/`undefined` (a TypeError); an absent key or a non-object gives `undefined` |
| JsValue.NatToDecimal | lib/moviebox-client.ts:225 | the decimal digits of a number, with no leading zero |
| JsValue.DecimalRoundTrip | lib/moviebox-client.ts:225 | reading the digits back gives the number |
| JsValue.DecimalCanonical | lib/moviebox-client.ts:225 | digits without a leading zero are the decimal text of their value |
| JsValue.IntToStringRoundTrip | lib/moviebox-client.ts:225 | `String(n)` of any integer, negative ones included, reads back as `n`, so distinct integers are written differently |
| JsValue.ToStringFacts | lib/moviebox-client.ts:225 | `String` of an array is its `join(",")`: "" when empty, the element's text for one element (null and undefined as ""), otherwise the first element's text, a comma and the text of the rest; a number reads back as itself |
| Percent.Utf8 | lib/proxy-helper.ts:29 | the UTF-8 bytes of a character: one byte below 0x80, otherwise a lead byte and continuation bytes |
| Percent.HexRoundTrip | lib/proxy-helper.ts:29 | a hex digit reads back as its value |
| Percent.EncodeChar | lib/proxy-helper.ts:29 | an unreserved character is kept; any other becomes the `%XX` of its UTF-8 bytes |
| Percent.PercentBytesAlphabet | lib/proxy-helper.ts:29 | `%XX` text holds only unreserved characters and `%` |
| Percent.EncodeUriComponent | lib/proxy-helper.ts:29 | `encodeURIComponent`: only unreserved characters and `%` in the result |
| Percent.EncodeUnreservedIsIdentity | lib/proxy-helper.ts:29 | text of unreserved characters is left as it is |
| Percent.DecodeOneEncodeChar | lib/proxy-helper.ts:29 | decoding the encoding of one character gives that character and its encoded length |
| Percent.UriComponentRoundTrip | lib/proxy-helper.ts:29 | `decodeURIComponent(encodeURIComponent(s)) == s` |
| Percent.DecodeOnePercentUtf8 | lib/moviebox-client.ts:225 | the `%XX` form of a character's UTF-8 bytes decodes to that character and takes exactly that form |
| Percent.FormEncodeChar | lib/moviebox-client.ts:225 | one character of the form encoding of `searchParams`: a space becomes `+` (and only a space does), a form-safe character is kept, any other becomes the `%XX` of its UTF-8 bytes |
| Percent.FormRoundTrip | lib/moviebox-client.ts:225 | the form parser (`+` as space, `%XX` as UTF-8 bytes) reads every form-encoded text back as the original |
| Percent.FormEncodeInjective | lib/moviebox-client.ts:225 | distinct names or values stay distinct once form-encoded |
| Percent.EncodeWithConcat | lib/moviebox-client.ts:113 | the URL parser's percent-encoding works character by character: a character of the encode set becomes the `%XX` of its UTF-8 bytes, any other is kept |
| Percent.EncodeWithDecodes | lib/moviebox-client.ts:113 | percent-decoding the encoding of a text without `%` gives the text back |
| Percent.EncodeWithIdempotent | lib/moviebox-client.ts:113 | encoding twice is encoding once |
| Urls.TrimC0 | lib/moviebox-client.ts:113 | the parser's stripping of control characters and spaces leaves printable text unchanged |
| Urls.RemoveTabNewline | lib/moviebox-client.ts:113 | removing tabs and newlines leaves printable text unchanged |
| Urls.EncodeOption | lib/moviebox-client.ts:113 | a present query or fragment stays present, and its encoded form holds no character of the set |
| Urls.SplitTail | lib/moviebox-client.ts:113 | the path starts with `/`; path, query and fragment are each free of their encode set |
| Urls.ParsePort | lib/moviebox-client.ts:113 | an accepted port is canonical: digits without a leading zero, not the scheme's default |
| Urls.ParseAuthority | lib/moviebox-client.ts:113 | an accepted host is valid and lower-case, and the port is canonical |
| Urls.Parse | lib/moviebox-client.ts:113 | `new URL(s)`: every URL it accepts is well formed |
| Urls.SerializePrintable | lib/moviebox-client.ts:116 | `toString()` of a well-formed URL holds no control character or space |
| Urls.ParsePortCanonical | lib/moviebox-client.ts:113 | a canonical port parses to itself |
| Urls.ParseAuthorityOfWellFormed | lib/moviebox-client.ts:113 | host and port serialized as an authority parse back to themselves |
| Urls.SplitTailOfWellFormed | lib/moviebox-client.ts:113 | path, query and fragment serialized as a tail parse back to themselves |
| Urls.ParseAfterSchemeOfWellFormed | lib/moviebox-client.ts:113 | everything after `scheme://` of a well-formed URL parses back to that URL |
| Urls.ParseCleanSplit | lib/moviebox-client.ts:113 | a clean input is parsed by splitting off its scheme |
| Urls.ParseSerialize | lib/moviebox-client.ts:113-116 | `new URL(u.toString())` gives `u` back for every well-formed URL |
| Urls.LowerHostValid | lib/moviebox-client.ts:114 | the lower case of a valid host is valid and already lower case |
| Urls.SetHostname | lib/moviebox-client.ts:114 | `u.hostname = h`: a valid host replaces the old one in lower case, an invalid one changes nothing, and the URL stays well formed |
| Urls.ClearPort | lib/moviebox-client.ts:115 | `u.port = ""`: only the port changes, and the URL stays well formed |
| Urls.ResolveAgainstRoot | lib/moviebox-client.ts:52 | `new URL(rel, base)` for a host root: an absolute `rel` is parsed on its own, and every result is well formed |
| Urls.NonEmptyPiecesConcat | lib/moviebox-client.ts:225 | skipping the empty `&`-pieces of a query works piece by piece, so the order is kept |
| Urls.NonEmptyPiecesKeeps | lib/moviebox-client.ts:225 | one piece stays unless it is empty; every non-empty piece is kept; a list of non-empty pieces is unchanged |
| Urls.QueryPairsClean | lib/moviebox-client.ts:225 | the pairs read from any query hold no `&`, and their names no `=` |
| Urls.PairOfWritten | lib/moviebox-client.ts:225 | `name=value` reads back as the pair when the name has no `=` |
| Urls.QueryPairsSerialize | lib/moviebox-client.ts:225 | reading back the query the pairs are written as gives those pairs |
| Urls.Without | lib/moviebox-client.ts:225 | the pairs with another name, in order |
| Urls.SetPair | lib/moviebox-client.ts:225 | `searchParams.set`: the name has exactly one pair, carrying the value, and the pairs of other names are kept in order |
| Urls.SetPairInPlace | lib/moviebox-client.ts:225 | `set` writes the new pair at the index of the first pair of that name, leaving the pairs before it untouched |
| Urls.SetPairNamed | lib/moviebox-client.ts:225 | after `set`, the pairs named `name` are just `(name, value)`, and every other name has the pairs it had |
| Urls.SetPairClean | lib/moviebox-client.ts:225 | `set` with an `&`-free value and an `&`- and `=`-free name keeps the pairs clean |
| Urls.WithoutTwice | lib/moviebox-client.ts:225 | removing a name twice is removing it once |
| Urls.WithoutConcat | lib/moviebox-client.ts:225 | removing a name works piece by piece |
| Urls.SetSearchParam | lib/moviebox-client.ts:225 | only the query changes, and it becomes the serialized pairs after the set, name and value form-encoded |
| Urls.AppendSearchParam | lib/moviebox-client.ts:181 | only the query changes, and the new pair comes after all the old ones |
| Cookies.SepIndex | lib/moviebox-client.ts:87 | the first `;` or `=`, with none before it |
| Cookies.CookieAheadIff | lib/moviebox-client.ts:87 | the computed lookahead holds exactly when the regex `[^;=]+=[^;=]+` can match there |
| Cookies.FirstSplit | lib/moviebox-client.ts:87 | the first comma the header is split at, with no split point before it |
| Cookies.SplitCookies | lib/moviebox-client.ts:87 | `split` gives at least one piece |
| Cookies.SplitCookiesFirstPiece | lib/moviebox-client.ts:87 | the first piece runs to the first split point; the rest are the pieces after it; with no split point the header is one piece |
| Cookies.SplitCookiesJoin | lib/moviebox-client.ts:87 | the pieces joined with commas give the header back |
| Cookies.Segments | lib/moviebox-client.ts:88-89 | `map(trim).filter(Boolean)`: every segment kept is non-empty and trimmed |
| Cookies.SegmentsConcat | lib/moviebox-client.ts:88-89 | trimming and dropping blank pieces works piece by piece, so the order is kept |
| Cookies.SegmentsKeeps | lib/moviebox-client.ts:88-89 | one piece gives its trimmed text unless that is empty, and every piece that is not blank is kept |
| Cookies.NameValueText | lib/moviebox-client.ts:91 | the part before the first `;`, trimmed, holds no `;` |
| Cookies.NameAndValue | lib/moviebox-client.ts:94-95 | the trimmed name and value around the first `=` have the shape the store keeps |
| Cookies.CookiePair | lib/moviebox-client.ts:91-96 | a segment names a cookie exactly when its `=` is past index 0, and then name and value are well shaped |
| Cookies.CookieNameNonEmpty | lib/moviebox-client.ts:93-96 | a found name is never empty, so the `if (key)` test always passes |
| Cookies.PairsOf | lib/moviebox-client.ts:90-98 | the cookies of the segments, all well shaped |
| Cookies.SetCookieSegments | lib/moviebox-client.ts:86-89 | the segments of a header, non-empty and trimmed |
| Cookies.SetCookieSegmentsFirst | lib/moviebox-client.ts:86-89 | the trimmed first piece unless blank, then the segments of what follows the first split point; every piece of the split that is not blank is kept |
| Cookies.SetCookiePairs | lib/moviebox-client.ts:83-98 | a missing or empty header sets nothing; all pairs are well shaped |
| Cookies.Get | lib/moviebox-client.ts:13 | a read of the store: None exactly when no entry has the name, otherwise the value of an entry with it |
| Cookies.Put | lib/moviebox-client.ts:96 | `store[key] = val`: an existing name keeps its place and takes the value; a new name goes last; `__proto__` changes nothing |
| Cookies.PutGet | lib/moviebox-client.ts:96 | after the assignment the name holds the value, and every other name holds what it held |
| Cookies.PutDistinct | lib/moviebox-client.ts:96 | the assignment keeps each name unique |
| Cookies.PutValid | lib/moviebox-client.ts:96 | the assignment keeps the store well formed |
| Cookies.StoreAllDistinct | lib/moviebox-client.ts:90-98 | storing a header's cookies keeps names unique |
| Cookies.StoreAllValid | lib/moviebox-client.ts:90-98 | storing well-shaped cookies keeps the store well formed |
| Cookies.StoreAllGet | lib/moviebox-client.ts:90-98 | a name holds the value of the last pair naming it; a name no pair mentions keeps its value |
| Cookies.StoreAllKeepsOrder | lib/moviebox-client.ts:90-98 | stored names keep their places, and new names come after them |
| Cookies.StoreStep | lib/moviebox-client.ts:90-98 | one more segment stores that segment's cookie, if any, after the earlier ones |
| Cookies.BuildCookieHeader | lib/moviebox-client.ts:104-108 | an empty store gives ""; a non-empty valid store gives a non-empty header |
| Cookies.CookieTexts | lib/moviebox-client.ts:106 | vocabulary for `Cookies.CookieHeaderRoundTrip`: each entry rendered as `name=value`, in store order |
| Cookies.TextsFreeOfSemicolon | lib/moviebox-client.ts:106 | no rendered cookie holds a `;` |
| Cookies.SplitJoinSemi | lib/moviebox-client.ts:107 | splitting the `"; "`-join at `;` gives the first text, then the others with one leading space each |
| Cookies.CookieOfText | lib/moviebox-client.ts:106 | a rendered `name=value`, with or without its leading space, reads back as that pair |
| Cookies.HeaderPieces | lib/moviebox-client.ts:104-108 | the header splits at `;` into the rendered cookies |
| Cookies.CookieHeaderRoundTrip | lib/moviebox-client.ts:104-108 | a server reading the `Cookie` header gets back exactly the store's entries, in order |
| Cookies.CookieJar.constructor | lib/moviebox-client.ts:13 | the store starts empty |
| Cookies.CookieJar.ParseAndStoreSetCookie | lib/moviebox-client.ts:82-102 | the store becomes the old store with every cookie of the header assigned in turn; a missing or empty header leaves it unchanged |
| Cookies.CookieJar.StoreSegments | lib/moviebox-client.ts:90-98 | the loop assigns the cookies of the segments in order, and the loop invariant keeps the store well formed |
| Cookies.CookieJar.StoreSegment | lib/moviebox-client.ts:91-97 | one segment's cookie, if it names one, is assigned; otherwise nothing changes |
| HtmlSnippet.IndexFrom | lib/moviebox-client.ts:74 | the first occurrence of a character at or after a position, or -1 when there is none |
| HtmlSnippet.TitleAtSound | lib/moviebox-client.ts:74 | a capture at a position is a match of `<title[^>]*>([^<]+)<\/title>` (ignoring case) around it |
| HtmlSnippet.TitleAtComplete | lib/moviebox-client.ts:74 | every match of the title regex at a position is found, with its captured text |
| HtmlSnippet.FirstSomeIsLeftmost | lib/moviebox-client.ts:74 | the first present capture is at the leftmost position that has one |
| HtmlSnippet.Titles | lib/moviebox-client.ts:74 | vocabulary for `HtmlSnippet.FindTitleIsLeftmost`: the capture of the regex tried at each position |
| HtmlSnippet.FindTitleIsLeftmost | lib/moviebox-client.ts:74 | `match` finds the leftmost title match, and none only when no position matches |
| HtmlSnippet.StripTags | lib/moviebox-client.ts:77 | `replace(/<[^>]+>/g, " ")`: never longer than the input, and keeps a first character that is not `<` |
| HtmlSnippet.StripTagsKeepsText | lib/moviebox-client.ts:77 | a part without `<` comes through unchanged, before whatever follows; text without `<` is its own result |
| HtmlSnippet.StripTagsTag | lib/moviebox-client.ts:77 | a tag `<x>`, with `x` non-empty and free of `>`, becomes one space before the rest |
| HtmlSnippet.StripTagsIsTagFree | lib/moviebox-client.ts:77 | no tag survives the stripping |
| HtmlSnippet.CollapseSpaces | lib/moviebox-client.ts:77 | `replace(/\s+/g, " ")`: never longer; a leading white-space run becomes one space |
| HtmlSnippet.CollapseOnlyPlainSpaces | lib/moviebox-client.ts:77 | the only white space left is the plain space |
| HtmlSnippet.CollapseNoDoubleSpace | lib/moviebox-client.ts:77 | no two spaces are adjacent after collapsing |
| HtmlSnippet.CollapseIsCollapsed | lib/moviebox-client.ts:77 | the collapsed text has no white-space run |
| HtmlSnippet.VisibleConcat | lib/moviebox-client.ts:77 | the visible characters of a join are the join of the visible characters |
| HtmlSnippet.CollapseKeepsVisible | lib/moviebox-client.ts:77 | collapsing keeps every character that is not white space, in order |
| HtmlSnippet.CollapseKeepsTagFree | lib/moviebox-client.ts:77 | collapsing creates no tag |
| HtmlSnippet.SliceKeeps | lib/moviebox-client.ts:78 | a slice of a tag-free, collapsed text is tag-free and collapsed |
| HtmlSnippet.TrimKeeps | lib/moviebox-client.ts:77 | trimming keeps a text tag-free and collapsed |
| HtmlSnippet.TrimTakeKeeps | lib/moviebox-client.ts:77-78 | trimming and cutting to 300 keeps a text tag-free and collapsed, with no leading white space |
| HtmlSnippet.StrippedTextShape | lib/moviebox-client.ts:77-78 | the fallback text holds no tag and no white-space run, has no leading white space, and is at most 300 characters |
| HtmlSnippet.ExtractHtmlSnippet | lib/moviebox-client.ts:72-79 | "" for an empty body; the trimmed capture of the leftmost title match if there is one; otherwise the stripped text of at most 300 characters |
| Upstream.MirrorHostsDistinct | lib/moviebox-client.ts:15-23 | the seven mirrors are pairwise different |
| Upstream.MirrorHostsValid | lib/moviebox-client.ts:15-23 | every mirror is a host name the URL parser accepts, already in lower case |
| Upstream.SelectedHost | lib/moviebox-client.ts:25 | the `MOVIEBOX_API_HOST` variable when it is set and non-empty, otherwise the first mirror; never empty |
| Upstream.Filter | lib/moviebox-client.ts:230 | `filter((h) => h !== x)`: exactly the hosts other than `x` |
| Upstream.FilterDistinct | lib/moviebox-client.ts:230 | filtering keeps hosts distinct |
| Upstream.FilterAbsent | lib/moviebox-client.ts:230 | filtering out an absent host changes nothing |
| Upstream.FilterAt | lib/moviebox-client.ts:230 | filtering out a host removes only its one occurrence and keeps the order |
| Upstream.HostsToTry | lib/moviebox-client.ts:230 | the selected host first; exactly the selected host and the mirrors |
| Upstream.CandidatesOrder | lib/moviebox-client.ts:230 | the hosts to try are distinct; the selected host, then the other hosts in listed order |
| Upstream.HostsToTryOrder | lib/moviebox-client.ts:230 | the selected host, then the mirrors without it, in listed order, each once |
| Upstream.DefaultHostsAreMirrors | lib/moviebox-client.ts:230 | without the variable the hosts to try are exactly the mirror list |
| Upstream.SetHeader | lib/moviebox-client.ts:246 | setting a header replaces its value in place, or adds it last |
| Upstream.SetHeaderGet | lib/moviebox-client.ts:246 | after setting, the header has the value and the others are unchanged; names stay unique |
| Upstream.SpreadGet | lib/moviebox-client.ts:237-242 | after `{...h, ...extra}` a header has the last value `extra` gives it, otherwise its value in `h`; names stay unique |
| Upstream.DefaultHeadersFacts | lib/moviebox-client.ts:29-36 | the default headers name each header once, carry no `Cookie` and no `Content-Type`, and refer to the host root |
| Upstream.WithCookieGet | lib/moviebox-client.ts:244-247 | a non-empty cookie header is attached as `Cookie`; an empty one attaches nothing |
| Upstream.AttemptBaseFacts | lib/moviebox-client.ts:237-240 | the attempt's base headers: `Origin` is the attempted host, and `Referer` is the caller's non-empty one or the host root |
| Upstream.AttemptHeadersFacts | lib/moviebox-client.ts:237-247 | an attempt sends the attempted host as `Origin` unless the caller overrides it; the caller's `Referer` (even an empty one) else the host root; the store's cookies, else the caller's `Cookie` |
| Upstream.PostHeadersFacts | lib/moviebox-client.ts:314-323 | `post` sends `application/json` unless the caller overrides it, and the store's cookies the same way |
| Upstream.LastValueNoneGet | lib/moviebox-client.ts:237-242 | a header the caller never names is not among the caller's headers |
| Upstream.SafeText | lib/moviebox-client.ts:63-69 | the body text, or a marker starting `<failed to read body: ` when reading fails |
| Upstream.ResponseJson | lib/moviebox-client.ts:206 | `response.json()` succeeds exactly when the body is read and parses, giving the parsed value |
| Upstream.ResponseText | lib/moviebox-client.ts:501 | `response.text()` succeeds exactly when the body is read, giving its text |
| Upstream.ReasonOf | lib/moviebox-client.ts:59 | the envelope's message, or "Unknown error" when that is falsy |
| Upstream.ProcessApiResponse | lib/moviebox-client.ts:55-60 | `data` exactly when `code === 0` and `message === "ok"`; a TypeError for `null`/`undefined`; otherwise the prefixed message, or "Unknown error" |
| Upstream.UnsuccessfulMessage | lib/moviebox-client.ts:59 | a rejected envelope throws a message with the fixed prefix; an empty message gives "Unknown error" |
| Upstream.GetAbsoluteUrl | lib/moviebox-client.ts:51-53 | every URL it returns parses |
| Upstream.HostUrlParses | lib/moviebox-client.ts:27 | `https://<host>/` parses to the host's root |
| Upstream.SlashIsNotAbsolute | lib/moviebox-client.ts:118 | an input starting with `/` is never an absolute URL |
| Upstream.TailPrintable | lib/moviebox-client.ts:52 | the tail of a well-formed URL is printable and starts with `/` |
| Upstream.TailNotDoubleSlash | lib/moviebox-client.ts:52 | a tail whose path does not start with `//` does not either |
| Upstream.GetAbsoluteUrlOfPath | lib/moviebox-client.ts:51-53 | resolving a path with its query and fragment gives the selected host's URL with exactly that path, query and fragment |
| Upstream.ReplaceHostInUrl | lib/moviebox-client.ts:111-123 | an unparseable input starting with `/` goes under `https://<host>`; any other unparseable input is returned as it is |
| Upstream.ReplaceHostKeepsRest | lib/moviebox-client.ts:111-116 | a parseable URL keeps scheme, path, query and fragment, loses its port, and takes the host when that is valid |
| Upstream.ReplaceHostWithMirror | lib/moviebox-client.ts:111-116 | for a mirror host, the new URL names exactly that host and keeps the rest |
| Upstream.SetAll | lib/moviebox-client.ts:222-228 | the `set` loop changes only the query, and a non-empty parameter map always leaves one |
| Upstream.SetAllNamed | lib/moviebox-client.ts:222-228 | after the `set` loop, a name some parameter has (form-encoded) has exactly one pair, holding the form-encoded `String` of the last such value; any other name keeps the pairs the URL had |
| Upstream.AppendAll | lib/moviebox-client.ts:178-183 | the `append` loop changes only the query, and a non-empty parameter map always leaves one |
| Upstream.AppendAllPairs | lib/moviebox-client.ts:178-183 | after the `append` loop, the query reads back as the URL's pairs followed by each parameter's form-encoded pair, in order |
| Upstream.SnippetOr | lib/moviebox-client.ts:273 | the HTML snippet of the body, or else its first 300 characters: never empty for a non-empty body |
| Upstream.ClassifyApiBody | lib/moviebox-client.ts:293-308 | a body that does not parse, `null`, or a present envelope that is not ok all give the invalid-JSON error; a present ok envelope gives `data`; JSON without an envelope is returned whole |
| Upstream.ClassifyRawJson | lib/moviebox-client.ts:413-425 | the raw-JSON endpoints return the parsed body exactly when it parses, and otherwise the invalid-JSON error naming the endpoint |
| Upstream.Message | lib/moviebox-client.ts:273 | the errors the client raises itself have a message; the runtime's have none here |
| Upstream.MessageParts | lib/moviebox-client.ts:273 | a host error names the host and status and ends in the body's diagnostic; the invalid-JSON error likewise; the HTTP error quotes at most 200 characters |
| Upstream.SharedRequests | lib/moviebox-client.ts:400-510 | subtitles and downloads send the same request and differ only in their error text; movie and TV details are the item details |
| Upstream.PlanPaths | lib/moviebox-client.ts:350-521 | every API path is under `/wefeed-h5-bff/web/`; detail pages and raw-JSON referers are under `/movies/` |
| Upstream.DefaultArguments | lib/moviebox-client.ts:357-521 | the wrappers' defaults: search page 1, 24 per page, all types; trending page 0, 18 per page; 10 suggestions; season and episode 0; recommendations page 1, 24 per page |
| ApiClient.Network.constructor | lib/moviebox-client.ts:141 | no request has been sent yet |
| ApiClient.Network.Fetch | lib/moviebox-client.ts:250-253 | `fetch` logs the request and settles as the server answers it at that point |
| ApiClient.EnsureOnce | lib/moviebox-client.ts:126-133 | after the bootstrap the flag is set whatever happened; a second call changes nothing; it sends at most one request |
| ApiClient.Trace | lib/moviebox-client.ts:233-278 | the loop makes at most one attempt per host |
| ApiClient.Requests | lib/moviebox-client.ts:250 | vocabulary for `ApiClient.ReplayLog`: the requests of the attempts, in order |
| ApiClient.ReplayLog | lib/moviebox-client.ts:233-278 | replaying attempts appends their requests to the log and leaves the bootstrap flag |
| ApiClient.ReplaySnoc | lib/moviebox-client.ts:233-278 | replaying one more attempt applies it to the state the others left |
| ApiClient.TryHostsOutcome | lib/moviebox-client.ts:233-283 | the loop stops early only at an ok answer, which it returns; if all hosts fail it throws the last host's error; the state is what the attempts left |
| ApiClient.TraceLength | lib/moviebox-client.ts:233-262 | at least one attempt; fewer attempts than hosts only after an ok answer |
| ApiClient.TryHostsState | lib/moviebox-client.ts:233-278 | the loop leaves the state its attempts leave |
| ApiClient.TryHostsResult | lib/moviebox-client.ts:260-283 | the result is the last attempt's ok answer, or, after every host, the last host's error |
| ApiClient.TraceSteps | lib/moviebox-client.ts:233-278 | attempt `j` goes to host `j`, from the state the earlier attempts left |
| ApiClient.FailedHostCookiesPersist | lib/moviebox-client.ts:255-262 | attempt `j + 1` starts from the state failed attempt `j` left, so a failed host's cookies are in the store the next attempt sends |
| ApiClient.TraceFailedBefore | lib/moviebox-client.ts:260-277 | every attempt before the last failed |
| ApiClient.AttemptSendsStore | lib/moviebox-client.ts:234-247 | an attempt sends the URL moved to its host and the store's current cookies |
| ApiClient.TryHostsLog | lib/moviebox-client.ts:233-278 | the log grows by one request per attempt made, so no host after the first ok one is asked |
| ApiClient.GetWithCookiesFailure | lib/moviebox-client.ts:210-284 | `getWithCookies` always leaves the bootstrap done; a failure is the URL's, or the last host's error after every host was tried |
| ApiClient.PostCookies | lib/moviebox-client.ts:311-342 | `post` bootstraps and then sends exactly one request; a failure leaves the store as the bootstrap left it; an ok answer's cookies are stored |
| ApiClient.GetLeavesSession | lib/moviebox-client.ts:177-202 | `get` touches neither the bootstrap flag nor the store, and sends at most one request |
| ApiClient.Client.constructor | lib/moviebox-client.ts:125-126 | a new client uses the selected host, shares the store, and has not bootstrapped |
| ApiClient.Client.StoreCookies | lib/moviebox-client.ts:255-258 | `if (sc) parseAndStoreSetCookie(sc)` on the shared store |
| ApiClient.Client.Exchange | lib/moviebox-client.ts:250-258 | one fetch whose cookies are stored whatever the status |
| ApiClient.Client.FetchAppInfo | lib/moviebox-client.ts:135-171 | one GET of the app-info path with the default headers; its cookies are kept, and everything else is dropped |
| ApiClient.Client.EnsureCookiesAssigned | lib/moviebox-client.ts:128-133 | the state becomes `Ensure` of the old state: one bootstrap, then the flag set |
| ApiClient.Client.SetParams | lib/moviebox-client.ts:222-228 | the `set` loop computes `SetAll` |
| ApiClient.Client.AppendParams | lib/moviebox-client.ts:179-183 | the `append` loop computes `AppendAll` |
| ApiClient.Client.ResolveUrl | lib/moviebox-client.ts:217-228 | the prepared URL of `getWithCookies`, with its errors |
| ApiClient.Client.TryHost | lib/moviebox-client.ts:234-277 | one pass of the loop: fetch from the host, store the cookies, judge the answer |
| ApiClient.Client.TryAll | lib/moviebox-client.ts:230-283 | the host loop computes `TryHosts`, whose properties are the lemmas above |
| ApiClient.Client.GetWithCookies | lib/moviebox-client.ts:210-284 | result and new state are those of `GetWithCookiesSpec` |
| ApiClient.Client.GetWithCookiesFromApi | lib/moviebox-client.ts:286-309 | result and new state are those of `FromApiSpec` |
| ApiClient.Client.Post | lib/moviebox-client.ts:311-342 | result and new state are those of `PostSpec` |
| ApiClient.Client.Deliver | lib/moviebox-client.ts:325-341 | one fetch whose cookies are kept only after an ok status; any other status is thrown as an HTTP error |
| ApiClient.Client.PostToApi | lib/moviebox-client.ts:344-348 | result and new state are those of `PostToApiSpec` |
| ApiClient.Client.Get | lib/moviebox-client.ts:177-202 | result and new state are those of `GetSpec` |
| ApiClient.Client.Transmit | lib/moviebox-client.ts:190-201 | one fetch whose cookies are not kept; a non-ok status is thrown as an HTTP error |
| ApiClient.Client.BuildGetRequest | lib/moviebox-client.ts:178-188 | the URL of `get`, with the parameters appended, and the default headers under the custom ones |
| ApiClient.Client.GetFromApi | lib/moviebox-client.ts:204-208 | result and new state are those of `GetFromApiSpec` |
| ApiClient.Client.Call | lib/moviebox-client.ts:350-521 | every endpoint wrapper: result and new state are those of `CallSpec` of its plan |
| ProxyHelper.ProxyUrl | lib/proxy-helper.ts:24-31 | "" stays ""; otherwise the origin and `/api/proxy?url=`, then a parameter that decodes back to the link and holds only unreserved characters and `%` |
| ProxyHelper.ProxyParamIsOneValue | lib/proxy-helper.ts:28-30 | the parameter holds no raw `&`, `=`, `?`, `#`, `+` or space |
| ProxyHelper.WithoutProto | lib/proxy-helper.ts:45-61 | the fields without `__proto__`, and all of them when there is none |
| ProxyHelper.ProxyUrlsAsWritten | lib/proxy-helper.ts:37-66 | the rewriter as written: an object comes out with no `__proto__` field |
| ProxyHelper.ProtoFieldIsLost | lib/proxy-helper.ts:45-61 | an object with a `__proto__` field loses it, so the keys change |
| ProxyHelper.PosterIsNoLink | lib/proxy-helper.ts:48-54 | a `poster` field holding `p.jpg` is not taken for a link |
| ProxyHelper.FirstLetterAbsent | lib/proxy-helper.ts:52-53 | a word whose first letter is missing from the key is not contained in it |
| ProxyHelper.ProxyUrls | lib/proxy-helper.ts:37-66 | falsy and scalar input is returned unchanged; an array maps element by element, so bare strings in it are never rewritten; an object keeps exactly its keys, each value rewritten by `ProxyField` |
| ProxyHelper.ProxyField | lib/proxy-helper.ts:48-60 | a string becomes its proxy link exactly when it starts with `http(s)://` or the key mentions "url"/"link"; `null`, arrays and objects are rewritten recursively; anything else is copied |
| ProxyHelper.AsWrittenAgreesWithoutProto | lib/proxy-helper.ts:37-66 | on trees without a `__proto__` key, the rewriter as written and as corrected agree |

## Left out

- URLs: the URL model covers absolute `scheme://host[:port]/path?query#fragment` URLs over a plain host alphabet. It has no user-info, no IPv6, IPv4 or IDNA hosts, no special handling of `file:` or other non-special schemes, and no dot-segment removal. A relative reference is resolved only against a host root, which is the one base `getAbsoluteUrl` uses. Most inputs outside this range are rejected as unparseable; the `Urls.` lines and the `Upstream.GetAbsoluteUrl` line of this section name those that are accepted and handled differently from `new URL`.
- Urls.Parse: a `\` in the path of an `http(s)` URL is kept as written, where `new URL` reads it as `/` (`https://a.com/x\y` has the path `/x\y` here, `/x/y` there).
- Urls.ParseAuthority: hosts that look like IPv4 addresses are taken as written: `a.1` is accepted though `new URL` rejects it, and `0x7f.1` is kept though `new URL` rewrites it to `127.0.0.1`.
- Urls.SetHostname: a value with a path after the host, such as `a.com/x`, is rejected and leaves the URL unchanged, where the `hostname` setter takes the host part `a.com`.
- Urls.AppendSearchParam: as for `set`, the existing query is kept as written instead of being decoded and written again (`a=b%20c` plus `x=1` gives `a=b%20c&x=1` here and `a=b+c&x=1` in JavaScript).
- Upstream.SetAll: inherits the raw handling of the existing query from Urls.SetSearchParam; the pairs of names no parameter sets are those of the query as written.
- Upstream.AppendAll: inherits the raw handling of the existing query from Urls.AppendSearchParam.
- ApiClient.Client.BuildGetRequest: the URL it builds for `get` carries the existing query as written, through Upstream.AppendAll.
- JsValue.Lookup: takes the first of repeated keys where `JSON.parse` keeps the last; repeated keys never occur in the `JSON.parse` results the client and the rewriter read.
- Urls.SetSearchParam: existing query pairs are not percent-decoded and re-encoded before the set, so a pre-existing query written in a non-canonical form is kept as written.
- JavaScript property order: entries keep insertion order. Integer-like keys, which JavaScript enumerates first, are not reordered.
- Numbers are integers: there are no floating-point values, `NaN` or `-0`, and `String(n)` is modelled for integers only.
- `JSON.parse` is the client's `parse` parameter. The POST body is the value before `JSON.stringify`, whose text is not modelled.
- `fetch`, `Response.text()` and `Response.json()` are the `Network` server function and the `Body` value. A URL that `fetch` refuses is one the server answers with a rejection. `credentials: "include"` has no effect to model.
- Response headers are looked up by the one `setCookie` field. The two-spelling `get("set-cookie") || get("Set-Cookie")` and header-name case-insensitivity are not modelled.
- `fetchAppInfo` reads the body, parses it and checks the envelope only to log the outcome. These steps have no effect on the state and are left out. Only their exceptions, which are all caught, matter.
- The messages of runtime errors (fetch rejections, `TypeError`, `SyntaxError`) are not modelled. `Message` returns None for them.
- `console` logging is left out, since it has no effect on results.
- Asynchrony: each call runs to completion before the next one starts. Concurrent bootstraps and interleaved cookie writes are not modelled.
- `process.env.MOVIEBOX_API_HOST` is the constructor's `env` parameter, and `getHostUrl()` is the rewriter's `origin` parameter. `getHostUrl`'s reading of `window` and `process.env` is not modelled.
- `app/api/proxy/route.ts` (the streaming relay), the route handlers, the React pages and `scripts/moviebox_wrapper.py` are not part of this model.
- Urls.ResolveAgainstRoot: proved to agree with `Parse` for absolute inputs and to yield well-formed URLs. Its treatment of relative references is specified as a function, not against an independent statement of the resolution algorithm. A scheme-relative form such as `https:foo` is resolved as the path `/https:foo`, where WHATWG gives `https://h/foo`; the client never passes such a reference. A `\` in the reference is kept as written, where `new URL` reads it as `/` for an `http(s)` base: `/\evil.com/x` and `\\evil.com/x` are scheme-relative for `new URL` (giving `https://evil.com/x`) but resolve here as a path on the base host, and `/movies/a\b` keeps its `\` where WHATWG gives `/movies/a/b`.
- Upstream.GetAbsoluteUrl: inherits the handling of `\` from Urls.ResolveAgainstRoot, so a path given to `getWithCookies` that starts with `/\` or `\\`, or holds a `\` (as a `detailPath` may), is requested on the MovieBox host with its `\` kept, where the code would request `https://evil.com/x` for `/\evil.com/x` and `/movies/a/b` for `/movies/a\b`.
- Strings are sequences of Unicode scalar values, while JavaScript strings are sequences of UTF-16 code units that may hold lone surrogates. Lengths are therefore counted in characters, and a character outside the Basic Multilingual Plane counts once instead of twice. The members below differ in this way:
- Text.Take: `slice(0, n)` is modelled as the first `n` characters; JavaScript takes `n` code units, which may be fewer characters and may end in half of a surrogate pair.
- HtmlSnippet.StrippedTextShape: the bound of 300 counts characters, not the UTF-16 code units of `slice(0, 300)`.
- HtmlSnippet.ExtractHtmlSnippet: the fallback is cut to 300 characters, not 300 UTF-16 code units.
- Upstream.SnippetOr: `text.slice(0, 300)` keeps 300 characters here; for a body of emoji JavaScript keeps 150.
- Upstream.MessageParts: the HTTP error quotes at most 200 characters of the body, where `body.slice(0, 200)` counts 200 UTF-16 code units.
- Percent.EncodeUriComponent: a lone surrogate, on which `encodeURIComponent` throws a URIError, cannot be represented, so that error is not modelled.
- ProxyHelper.ProxyUrl: the URIError `encodeURIComponent` throws for a link holding a lone surrogate is not modelled.
- ProxyHelper.ProxyUrls: a string value holding a lone surrogate, which makes the rewriter throw, cannot be represented.
- ProxyHelper.ProxyField: the URIError of the proxy branch for a lone surrogate is not modelled.

## Findings

| source | as written | input that shows it | evidently intended | confidence | as-written member | corrected member |
|---|---|---|---|---|---|---|
| lib/proxy-helper.ts:45-61 | the rewritten object is built by `processed[key] = ...` on a plain `{}`, so a field named `__proto__` sets the prototype (or, for a primitive value, does nothing) instead of creating a field | the object `{"__proto__": 1, "poster": "p.jpg"}`, as a `JSON.parse` result | every key of the input kept, as the comment "Process an object and convert all URL fields to proxied URLs" (lib/proxy-helper.ts:34) promises | low: not executed | ProxyHelper.ProxyUrlsAsWritten (shown by ProxyHelper.ProtoFieldIsLost) | ProxyHelper.ProxyUrls |
