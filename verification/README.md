# curl++ in Dafny

A model of the logic that `curl::easy` and `curl::error` (src/curl++.cpp) add
on top of libcurl. libcurl itself is an oracle (`Curl.Library`): a total
function from each request (`curl_easy_setopt`, `curl_easy_pause`,
`curl_easy_perform` on a handle) to its `CURLcode`, plus
`curl_easy_strerror` and the chunks a transfer hands to the write callback.
A C++ exception is a `Failure`/`Fail` value (`Wrappers`).

What is modelled:

- **The status-check rule** (`CHECK`): every wrapped call throws exactly
  when libcurl answers something other than `CURLE_OK`, and the thrown
  error names the stringified call, the file and the line of the check.
  The `set` overloads for pointers and function pointers are templates in
  src/curl++.h, so their errors name the header.
- **Construction**: both `easy` constructors and `duplicate()` throw
  exactly on a null handle. A session's handle has type `LiveHandle`,
  so every `Easy` value holds a non-null handle.
- **`add_cookie(map)`**: the capacity reserved for the line buffer, and one
  `Set-Cookie: name=value;` line per entry in ascending key order. Key
  order is `std::less<std::string>`, defined here as lexicographic order on
  characters (`Cookies.Below`); `SortedKeys` is the map's iteration order
  and is proved to be the only strictly ascending listing of the keys.
- **The string sink**: the write callback appends `size * nmemb` bytes and
  returns that count; `recv_into(std::string&)` folds the delivered chunks
  into the caller's buffer; `get()` does so into an empty string.
- **`curl::error`**: the buffer is measured with `snprintf(nullptr, 0, …)`,
  allocated with one byte more, and written with `snprintf(buf_, size, …)`.
  The write never passes the allocation, but the bound `size` leaves room
  for all but the last character of the message, so `what()` lacks the
  message's final `'\n'`. The model follows the code here; a bound of
  `size + 1` would have kept the newline.
- **Comparison operators**: all six compare the handle addresses, so they
  form one strict total order on sessions, with equality as handle identity.

Strings are `seq<char>`. A `char *` is read up to its first NUL
(`CText.CString`), which is what libcurl receives through `c_str()` and what
`%s` prints. `%d` is `CText.Decimal`, proved to read back to its argument.
`__FILE__` is taken as the repository path of the file.

## Model

| member | source | states |
|---|---|---|
| Curl.Check | src/curl++.cpp:26-28 | a checked call returns normally if and only if its code is `CURLE_OK`; otherwise the error's text is the file, line, stringified call and library description, with the write inside its buffer |
| Curl.Call | src/curl++.cpp:26-28 | `CHECK` around a library request passes exactly when the library answers that request with `CURLE_OK` |
| Session.Acquire | src/curl++.cpp:50-62 | a constructor succeeds exactly on a non-null handle and then keeps that handle; on null it throws the fixed acquisition message for its line |
| Session.Create | src/curl++.cpp:50-55 | `easy()` throws exactly when `curl_easy_init` gave null, with the text for line 54; a constructed session holds a non-null handle |
| Session.Adopt | src/curl++.cpp:57-62 | `easy(CURL*)` throws exactly on a null handle, with the text for line 61; otherwise it owns the given non-null handle |
| Session.Duplicate | src/curl++.cpp:117-120 | `duplicate()` succeeds exactly when `curl_easy_duphandle` returned a non-null handle, which the copy then holds; otherwise it throws the acquisition message of line 61 |
| Session.Passed | src/curl++.cpp:76 | a string option reaches libcurl as the C string `c_str()` designates: unchanged when it holds no NUL, strictly shorter (cut at the first NUL) when it does; other arguments pass unchanged |
| Session.Set | src/curl++.cpp:69-77 | every `set` overload (`long` and `std::string` here, the pointer and function-pointer templates of src/curl++.h:195-204) throws if and only if `curl_easy_setopt` answers other than `CURLE_OK`, and its message names that overload's call, file and line |
| Session.AddCookie | src/curl++.cpp:79-87 | the single-cookie overloads throw if and only if the `CURLOPT_COOKIELIST` call fails, each naming its own expression and line |
| Session.Pause | src/curl++.cpp:122-125 | `pause` throws if and only if `curl_easy_pause` fails, naming line 124 |
| Session.Perform | src/curl++.cpp:127-130 | `perform` throws if and only if `curl_easy_perform` fails, naming line 129 |
| Session.OperatorsAgree | src/curl++.cpp:166-194 | the six operators are one comparison of handles: `==` is handle identity, `!=` its negation, `>` the converse of `<`, `<=` is `<` or `==`, `>=` is not `<` |
| Session.LessIsStrictTotalOrder | src/curl++.cpp:176-179 | `<` on sessions is irreflexive, transitive, asymmetric and total |
| Cookies.BelowIrreflexive | src/curl++.cpp:105 | no key sorts before itself in the map's order |
| Cookies.BelowTransitive | src/curl++.cpp:105 | the map's key order is transitive |
| Cookies.BelowTotal | src/curl++.cpp:105 | any two distinct keys are ordered one way or the other |
| Cookies.LeastExists | src/curl++.cpp:105 | every non-empty key set has a least key, the first one iteration visits |
| Cookies.LeastUnique | src/curl++.cpp:105 | the least key of a set is unique |
| Cookies.Least | src/curl++.cpp:105 | yields the key of the set below every other key |
| Cookies.SortedKeys | src/curl++.cpp:105 | the iteration order lists every key of the map exactly once, strictly ascending |
| Cookies.SortedKeysUnique | src/curl++.cpp:105 | any strictly ascending listing of the keys is the iteration order |
| Cookies.CookieLine | src/curl++.cpp:107-112 | a line has length name + value + 14 and ends in `;`, with no trailing newline |
| Cookies.CookieLineRoundTrip | src/curl++.cpp:107-112 | a line reads back as its name and value when the name has no `=`, and every line that reads back as a pair is exactly the line built from it |
| Cookies.MaxNeed | src/curl++.cpp:92-101 | `size` is at least name + value + 16 for every entry, equals it for some entry, and is 0 for an empty map |
| Cookies.BuildLines | src/curl++.cpp:104-114 | one line per key, in the given order, each built from that key and its value |
| Cookies.AddCookies | src/curl++.cpp:89-115 | emits exactly one line per entry in ascending key order and none for an empty map; sends each line's `c_str()` as a `CURLOPT_COOKIELIST` request on the session's handle; never throws, whatever the library answers to those requests; reserves one more than the largest need |
| Cookies.ReserveCoversEveryLine | src/curl++.cpp:92-112 | the reserved capacity exceeds every line by at least 3 and the longest line by exactly 3 |
| Sink.WriteString | src/curl++.cpp:196-201 | the callback keeps the buffer as a prefix, appends exactly the `size * nmemb` delivered bytes after it, and returns that count |
| Sink.ReceivedAppend | src/curl++.cpp:144-149 | what two consecutive deliveries carry is what each carries, in order |
| Sink.RecvInto | src/curl++.cpp:144-149 | succeeds exactly when both `set` calls and `perform` succeed; a failed `set` leaves the buffer untouched, otherwise the buffer is its old contents followed by every chunk in delivery order, each acknowledged in full, even when `perform` then throws |
| Sink.Get | src/curl++.cpp:137-142 | succeeds exactly when the transfer does, returning just the concatenation of the delivered chunks |
| Errors.FromMessage | src/curl++.cpp:261-263 | `error(msg)` copies `msg` up to its NUL into a buffer exactly its size, and `what()` returns it |
| Errors.AtSiteOfPlain | src/curl++.cpp:265-278 | for a NUL-free message and file, `what()` is exactly `File: <file> - Line: <line>`, a newline, and the message |
| Errors.Formatted | src/curl++.cpp:270-277 | the buffer gets exactly `size + 1` bytes for a text of length `size`; written with bound `size` it stays in bounds, leaves one byte unused, and holds the text minus its last character, then a NUL |
| Errors.AtSite | src/curl++.cpp:265-278 | `error(msg, file, line)` allocates one byte more than the site message, leaves the last byte unused, and `what()` is the full site message without its final newline |
| Errors.WithCode | src/curl++.cpp:280-294 | `error(msg, code, file, line)` allocates one byte more than the message, leaves the last byte unused, and `what()` is the full message with the library's description, without its final newline |
| CText.CStringStopsAtNul | src/curl++.cpp:301-304 | a buffer read as a C string yields exactly the text before the NUL that was written |
| CText.Snprintf | src/curl++.cpp:277 | `snprintf` with bound `n` stores at most `n` bytes: the first `n - 1` characters and a NUL, nothing when `n` is 0 |
| CText.DecimalRoundTrip | src/curl++.cpp:268 | the `%d` rendering of the line number reads back as that number |

## Left out

- libcurl itself: setting options, transfers, pausing, `curl_easy_reset`, `curl_easy_duphandle`, `curl_easy_init` and `curl_easy_strerror` are oracle values, not behaviour.
- `init` (global init/cleanup), destructors, move and `swap`: resource lifetime has no counterpart in a value model.
- The `list` wrapper: `curl_slist_append` and its failure and ownership live in libcurl.
- The stream and `FILE *` sinks: they are I/O, and `fwrite`'s partial writes are outside the wrapper.
- `escape` and `unescape`: declared in the header without definitions.
- `reset()`: a forwarding call with no check and no result.
- Errors.Formatted: does not model `snprintf` returning a negative `int` for messages longer than `INT_MAX`, nor `malloc` or `strdup` returning null.
- Cookies.MaxNeed: `std::string::size_type` arithmetic is unbounded here; overflow of `size` would need a key and value near `SIZE_MAX` characters.
- Sink.WriteString: `size * nmemb` is unbounded here; libcurl never delivers a product that wraps `size_t`.
- Cookies.Below: compares characters by code point; the source compares bytes as `unsigned char`, which agrees on byte values.
- Session.OperatorsAgree: handles are compared as plain addresses. The built-in `<`, `>`, `<=`, `>=` the source uses on pointers to unrelated objects are unspecified in C++ (only `std::less` promises a total order); the model assumes a flat address space where they compare addresses.
- Session.LessIsStrictTotalOrder: rests on the same flat-address-space assumption; C++ itself does not promise that the built-in `<` on the handles of unrelated sessions is a total order.
- Strings holding NUL inside a key, value or option are cut at the NUL as C strings are; libcurl's parsing of cookie lines is not modelled.
