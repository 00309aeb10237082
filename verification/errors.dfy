/** `curl::error`, the one exception type of the wrapper (src/curl++.cpp,
    lines 261-304). Its whole state is a heap buffer holding the message that
    `what()` returns; the constructors differ only in how they fill it. */
module Errors {

  import opened CText

  /** The buffer `buf_`: `alloc` bytes were obtained from the allocator and the
      first `|stored|` of them were written. */
  datatype Error = Error(alloc: nat, stored: string) {

    /** No write went past the end of the allocation. */
    predicate InBounds() {
      |stored| <= alloc
    }

    /** `what()`: the buffer read as a C string. */
    function What(): string {
      CString(stored)
    }
  }

  /** The text of format `"File: %s - Line: %d\n%s\n"`. */
  function SiteText(msg: string, file: string, line: int): string {
    "File: " + CString(file) + " - Line: " + Decimal(line) + "\n" + CString(msg) + "\n"
  }

  /** Arguments without NUL are printed whole. */
  lemma SiteTextOfPlain(msg: string, file: string, line: int)
    requires '\0' !in msg && '\0' !in file
    ensures SiteText(msg, file, line) == "File: " + file + " - Line: " + Decimal(line) + "\n" + msg + "\n"
  {
    CStringStopsAtNul(msg, "");
    CStringStopsAtNul(file, "");
  }

  /** The text of format `"File: %s - Line: %d\n%s\n----------\n%s\n"`. */
  function CodeText(msg: string, file: string, line: int, errstr: string): string {
    "File: " + CString(file) + " - Line: " + Decimal(line) + "\n" + CString(msg)
      + "\n----------\n" + CString(errstr) + "\n"
  }

  /** Arguments without NUL are printed whole. */
  lemma CodeTextOfPlain(msg: string, file: string, line: int, errstr: string)
    requires '\0' !in msg && '\0' !in file
    ensures CodeText(msg, file, line, errstr)
      == "File: " + file + " - Line: " + Decimal(line) + "\n" + msg + "\n----------\n" + CString(errstr) + "\n"
  {
    CStringStopsAtNul(msg, "");
    CStringStopsAtNul(file, "");
  }

  /** `error(msg)`: the buffer is a `strdup` copy of `msg`. */
  function FromMessage(msg: string): (e: Error)
    ensures e.InBounds() && |e.stored| == e.alloc
    ensures e.What() == CString(msg)
  {
    var t := CString(msg);
    CStringStopsAtNul(t, "");
    Error(|t| + 1, t + "\0")
  }

  /** The measure-then-write pattern both formatting constructors share:
      `size` is the length `snprintf(nullptr, 0, …)` reports, the buffer gets
      `size + 1` bytes, and the message is written with bound `size`, which
      leaves room for all of it but its last character. */
  function Formatted(text: string): (e: Error)
    requires |text| > 0 && '\0' !in text
    ensures e.InBounds() && |e.stored| + 1 == e.alloc
    ensures e.alloc == |text| + 1
    ensures e.stored == text[..|text| - 1] + "\0"
    ensures e.What() == text[..|text| - 1]
  {
    var size := |text|;
    CStringStopsAtNul(text[..size - 1], "");
    Error(size + 1, Snprintf(size, text))
  }

  /** `error(msg, file, line)`: what() is the site message without its final
      newline, and the write stays inside the allocation. */
  function AtSite(msg: string, file: string, line: int): (e: Error)
    ensures e.InBounds() && |e.stored| + 1 == e.alloc
    ensures e.alloc == |SiteText(msg, file, line)| + 1
    ensures e.What() + "\n" == SiteText(msg, file, line)
  {
    var text := SiteText(msg, file, line);
    assert text[|text| - 1] == '\n';
    assert text[..|text| - 1] + "\n" == text;
    Formatted(text)
  }

  /** With NUL-free arguments, `what()` is the site message verbatim. */
  lemma AtSiteOfPlain(msg: string, file: string, line: int)
    requires '\0' !in msg && '\0' !in file
    ensures AtSite(msg, file, line).What() == "File: " + file + " - Line: " + Decimal(line) + "\n" + msg
  {
    SiteTextOfPlain(msg, file, line);
    var w := AtSite(msg, file, line).What();
    assert (w + "\n")[..|w|] == w;
  }

  /** `error(msg, code, file, line)`: as `AtSite`, with the library's
      description `errstr` of the status code appended below a rule. */
  function WithCode(msg: string, file: string, line: int, errstr: string): (e: Error)
    ensures e.InBounds() && |e.stored| + 1 == e.alloc
    ensures e.alloc == |CodeText(msg, file, line, errstr)| + 1
    ensures e.What() + "\n" == CodeText(msg, file, line, errstr)
  {
    var text := CodeText(msg, file, line, errstr);
    assert text[|text| - 1] == '\n';
    assert text[..|text| - 1] + "\n" == text;
    Formatted(text)
  }
}
