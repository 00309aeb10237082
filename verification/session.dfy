/** `curl::easy` (src/curl++.cpp, lines 50-194): a session owning one easy
    handle. Construction refuses a null handle; every forwarding call that the
    source wraps in `CHECK` throws exactly when libcurl reports failure; the
    comparison operators compare handles and nothing else. */
module Session {

  import opened Wrappers
  import opened CText
  import opened Errors
  import opened Curl

  /** The `__FILE__` of the expansions in the implementation and in the
      header (the compiler reports the path it was given; these are the
      repository's paths). */
  const SourceFile := "src/curl++.cpp"
  const HeaderFile := "src/curl++.h"

  /** The message of a failed construction, spelling included. */
  const AcquireFailed := "Failed to aquire CURL easy handle"

  /** A handle a constructor accepted: never `nullptr`. */
  type LiveHandle = h: Handle | h != Null witness 1

  datatype Easy = Easy(handle: LiveHandle) {

    predicate Eq(other: Easy) {
      handle == other.handle
    }

    predicate Ne(other: Easy) {
      handle != other.handle
    }

    predicate Lt(other: Easy) {
      handle < other.handle
    }

    predicate Gt(other: Easy) {
      handle > other.handle
    }

    predicate Le(other: Easy) {
      handle <= other.handle
    }

    predicate Ge(other: Easy) {
      handle >= other.handle
    }
  }

  /** Both constructors: keep the handle, or throw `ERROR(AcquireFailed)`
      raised at `line` when it is null. */
  function Acquire(h: Handle, line: int): (r: Result<Easy, Error>)
    ensures r.Success? <==> h != Null
    ensures r.Success? ==> r.value.handle == h
    ensures r.Failure? ==> r.error.InBounds()
    ensures r.Failure? ==> r.error.What() == "File: " + SourceFile + " - Line: " + Decimal(line) + "\n" + AcquireFailed
  {
    if h == Null then
      AtSiteOfPlain(AcquireFailed, SourceFile, line);
      Failure(AtSite(AcquireFailed, SourceFile, line))
    else Success(Easy(h))
  }

  /** `easy()`, where `fromInit` is what `curl_easy_init()` returned. */
  function Create(fromInit: Handle): (r: Result<Easy, Error>)
    ensures r.Success? <==> fromInit != Null
    ensures r.Success? ==> r.value.handle == fromInit && r.value.handle != Null
    ensures r.Failure? ==> r.error.What() == "File: " + SourceFile + " - Line: " + Decimal(54) + "\n" + AcquireFailed
  {
    Acquire(fromInit, 54)
  }

  /** `easy(CURL *)`: takes ownership of a handle the caller obtained. */
  function Adopt(h: Handle): (r: Result<Easy, Error>)
    ensures r.Success? <==> h != Null
    ensures r.Success? ==> r.value.handle == h && r.value.handle != Null
    ensures r.Failure? ==> r.error.What() == "File: " + SourceFile + " - Line: " + Decimal(61) + "\n" + AcquireFailed
  {
    Acquire(h, 61)
  }

  /** `duplicate()`: wraps what `curl_easy_duphandle` returned for `e` with
      `easy(CURL *)`, so a failed duplication throws the error of line 61. */
  function Duplicate(e: Easy, copy: Handle): (r: Result<Easy, Error>)
    ensures r.Success? <==> copy != Null
    ensures r.Success? ==> r.value.handle == copy && r.value.handle != Null
    ensures r.Failure? ==> r.error.What() == "File: " + SourceFile + " - Line: " + Decimal(61) + "\n" + AcquireFailed
  {
    Adopt(copy)
  }

  /** The head every stringified `curl_easy_setopt` call shares. */
  const SetoptCall := "curl_easy_setopt(handle_, "

  /** Where the `CHECK` of each `set` overload sits: `long` and
      `std::string` in the implementation, the pointer and function-pointer
      templates in the header. */
  function SetSite(value: OptValue): Site {
    match value
    case LongValue(_) => Site(SetoptCall + "option, value)", SourceFile, 71)
    case StringValue(_) => Site(SetoptCall + "option, value.c_str())", SourceFile, 76)
    case ObjectPointer(_) => Site(SetoptCall + "option, value)", HeaderFile, 198)
    case FunctionPointer(_) => Site(SetoptCall + "option, value)", HeaderFile, 203)
  }

  /** The argument as libcurl sees it: a `std::string` arrives as `c_str()`. */
  function Passed(value: OptValue): (v: OptValue)
    ensures v.StringValue? <==> value.StringValue?
    ensures v.StringValue? ==> v.s == CString(value.s)
    ensures !v.StringValue? ==> v == value
    ensures value.StringValue? && '\0' !in value.s ==> v == value
    ensures value.StringValue? && '\0' in value.s ==> |v.s| < |value.s|
  {
    match value
    case StringValue(s) =>
      if '\0' !in s then
        CStringStopsAtNul(s, "");
        StringValue(CString(s))
      else StringValue(CString(s))
    case _ => value
  }

  /** `set(option, value)`, every overload. */
  function Set(lib: Library, e: Easy, option: CurlOption, value: OptValue): (r: Outcome<Error>)
    ensures r.Pass? <==> lib.status(SetOpt(e.handle, option, Passed(value))) == CURLE_OK
    ensures r.Fail? ==>
      r.error.What() == CheckMessage(SetSite(value), lib.strerror(lib.status(SetOpt(e.handle, option, Passed(value)))))
  {
    SetSitePlain(value);
    Call(lib, SetSite(value), SetOpt(e.handle, option, Passed(value)))
  }

  /** Where the `CHECK` of `add_cookie(const char *)` (`viaStdString` false)
      and of `add_cookie(const std::string &)` (true) sits. */
  function CookieSite(viaStdString: bool): Site {
    if viaStdString then Site(SetoptCall + "CURLOPT_COOKIELIST, cookie.c_str())", SourceFile, 86)
    else Site(SetoptCall + "CURLOPT_COOKIELIST, cookie)", SourceFile, 81)
  }

  /** The single-cookie `add_cookie` overloads: one `CURLOPT_COOKIELIST` line. */
  function AddCookie(lib: Library, e: Easy, cookie: string, viaStdString: bool): (r: Outcome<Error>)
    ensures r.Pass? <==> lib.status(SetOpt(e.handle, CookieList, StringValue(CString(cookie)))) == CURLE_OK
    ensures r.Fail? ==>
      r.error.What() == CheckMessage(CookieSite(viaStdString),
                                     lib.strerror(lib.status(SetOpt(e.handle, CookieList, StringValue(CString(cookie))))))
  {
    CookieSitePlain(viaStdString);
    Call(lib, CookieSite(viaStdString), SetOpt(e.handle, CookieList, StringValue(CString(cookie))))
  }

  /** Every `set` site's call text and file name are free of NUL. */
  lemma SetSitePlain(value: OptValue)
    ensures SetSite(value).Plain()
  {
    assert '\0' !in SetoptCall;
    assert '\0' !in "option, value)" && '\0' !in "option, value.c_str())";
    assert '\0' !in SourceFile && '\0' !in HeaderFile;
  }

  /** Both `add_cookie` sites' call text and file name are free of NUL. */
  lemma CookieSitePlain(viaStdString: bool)
    ensures CookieSite(viaStdString).Plain()
  {
    assert '\0' !in SetoptCall && '\0' !in SourceFile;
    assert '\0' !in "CURLOPT_COOKIELIST, cookie)" && '\0' !in "CURLOPT_COOKIELIST, cookie.c_str())";
  }

  const PauseSite := Site("curl_easy_pause(handle_, bitmask)", SourceFile, 124)
  const PerformSite := Site("curl_easy_perform(handle_)", SourceFile, 129)

  /** `pause(bitmask)`. */
  function Pause(lib: Library, e: Easy, bitmask: int): (r: Outcome<Error>)
    ensures r.Pass? <==> lib.status(PauseTransfer(e.handle, bitmask)) == CURLE_OK
    ensures r.Fail? ==> r.error.What() == CheckMessage(PauseSite, lib.strerror(lib.status(PauseTransfer(e.handle, bitmask))))
  {
    assert PauseSite.Plain();
    Call(lib, PauseSite, PauseTransfer(e.handle, bitmask))
  }

  /** `perform()`. */
  function Perform(lib: Library, e: Easy): (r: Outcome<Error>)
    ensures r.Pass? <==> lib.status(PerformTransfer(e.handle)) == CURLE_OK
    ensures r.Fail? ==> r.error.What() == CheckMessage(PerformSite, lib.strerror(lib.status(PerformTransfer(e.handle))))
  {
    assert PerformSite.Plain();
    Call(lib, PerformSite, PerformTransfer(e.handle))
  }

  /** The six operators are one comparison of handles seen six ways, and
      equality is identity of the handle. */
  lemma OperatorsAgree(a: Easy, b: Easy)
    ensures a.Eq(b) <==> a.handle == b.handle
    ensures a.Ne(b) <==> !a.Eq(b)
    ensures a.Gt(b) <==> b.Lt(a)
    ensures a.Le(b) <==> a.Lt(b) || a.Eq(b)
    ensures a.Ge(b) <==> !a.Lt(b)
  {
  }

  /** `<` is a strict total order on sessions. */
  lemma LessIsStrictTotalOrder(a: Easy, b: Easy, c: Easy)
    ensures !a.Lt(a)
    ensures a.Lt(b) && b.Lt(c) ==> a.Lt(c)
    ensures a.Lt(b) || a.Eq(b) || b.Lt(a)
    ensures a.Lt(b) ==> !b.Lt(a) && !a.Eq(b)
  {
  }
}
