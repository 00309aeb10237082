/** The boundary to libcurl. The library itself is not modelled: a `Library`
    value is an oracle saying which status code each request returns, how a
    code is described, and which chunks a transfer delivers to the write
    callback. On top of it sits the `CHECK` rule of src/curl++.cpp, lines
    26-28: a call whose code is not `CURLE_OK` throws. */
module Curl {

  import opened Wrappers
  import opened Errors
  import CText

  /** `CURLcode`; `CURLE_OK` is 0. */
  type CurlCode = nat

  const CURLE_OK: CurlCode := 0

  /** A `CURL *`, as an address; 0 is `nullptr`. */
  type Handle = nat

  const Null: Handle := 0

  /** The `CURLoption`s the wrapper names itself; any other option a caller
      passes through is `OtherOption`. */
  datatype CurlOption = CookieList | WriteData | WriteFunction | OtherOption(id: nat)

  /** The argument handed to `curl_easy_setopt`, by the C type it arrives as. */
  datatype OptValue =
    | LongValue(n: int)
    | StringValue(s: string)
    | ObjectPointer(target: string)
    | FunctionPointer(name: string)

  /** One call into the library that returns a status code. */
  datatype Request =
    | SetOpt(handle: Handle, option: CurlOption, value: OptValue)
    | PauseTransfer(handle: Handle, bitmask: int)
    | PerformTransfer(handle: Handle)

  /** What the write callback receives per call: a pointer to `size * nmemb`
      bytes, seen here as the characters behind it. */
  datatype Chunk = Chunk(ptr: string, size: nat, nmemb: nat)

  /** libcurl as an oracle: the code of every request (`curl_easy_setopt`,
      `curl_easy_pause`, `curl_easy_perform`), `curl_easy_strerror`, and the
      chunks a transfer on a handle hands to the write callback. */
  datatype Library = Library(
    status: Request -> CurlCode,
    strerror: CurlCode -> string,
    delivers: Handle -> seq<Chunk>)

  /** A `CHECK(x)` expansion: the stringified call `#x` and the `__FILE__` and
      `__LINE__` of the expansion. */
  datatype Site = Site(expr: string, file: string, line: int) {

    /** The stringified call and the file name hold no NUL, as every site
        of the source does. */
    predicate Plain() {
      '\0' !in expr && '\0' !in file
    }
  }

  /** What `what()` returns for a check at a plain `site` that failed with a
      code the library describes as `errstr`. */
  function CheckMessage(site: Site, errstr: string): string {
    "File: " + site.file + " - Line: " + CText.Decimal(site.line) + "\n" + site.expr
      + "\n----------\n" + CText.CString(errstr)
  }

  /** `CHECK(x)` once `x` has returned `code`: a normal return when the code
      is `CURLE_OK`, otherwise an `error` naming the call, the place and the
      library's description of the code. */
  function Check(lib: Library, site: Site, code: CurlCode): (r: Outcome<Error>)
    ensures r.Pass? <==> code == CURLE_OK
    ensures r.Fail? ==> r.error.InBounds()
    ensures r.Fail? ==> r.error.What() + "\n" == CodeText(site.expr, site.file, site.line, lib.strerror(code))
    ensures r.Fail? && site.Plain() ==> r.error.What() == CheckMessage(site, lib.strerror(code))
  {
    if code != CURLE_OK then
      var e := WithCode(site.expr, site.file, site.line, lib.strerror(code));
      if site.Plain() then
        CodeTextOfPlain(site.expr, site.file, site.line, lib.strerror(code));
        var w := e.What();
        assert (w + "\n")[..|w|] == w;
        assert (CheckMessage(site, lib.strerror(code)) + "\n")[..|w|] == CheckMessage(site, lib.strerror(code));
        Fail(e)
      else Fail(e)
    else Pass
  }

  /** `CHECK(x)` around a request sent to the library. */
  function Call(lib: Library, site: Site, req: Request): (r: Outcome<Error>)
    ensures r.Pass? <==> lib.status(req) == CURLE_OK
    ensures r.Fail? && site.Plain() ==> r.error.What() == CheckMessage(site, lib.strerror(lib.status(req)))
  {
    Check(lib, site, lib.status(req))
  }
}
