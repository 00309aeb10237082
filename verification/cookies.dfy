/** `easy::add_cookie(const std::map<std::string, std::string> &)`
    (src/curl++.cpp, lines 89-115): one `Set-Cookie: name=value;` line per
    entry, handed to libcurl in the map's key order, into a string whose
    capacity was reserved up front for the longest line. */
module Cookies {

  import opened Wrappers
  import opened CText
  import opened Errors
  import opened Curl
  import opened Session

  /** `std::less<std::string>`: lexicographic by character code, a proper
      prefix before its extensions. */
  predicate Below(a: string, b: string)
    decreases |a|
  {
    |b| > 0 && (|a| == 0 || a[0] < b[0] || (a[0] == b[0] && Below(a[1..], b[1..])))
  }

  lemma {:induction false} BelowIrreflexive(a: string)
    ensures !Below(a, a)
    decreases |a|
  {
    if |a| > 0 {
      BelowIrreflexive(a[1..]);
    }
  }

  lemma {:induction false} BelowTransitive(a: string, b: string, c: string)
    requires Below(a, b) && Below(b, c)
    ensures Below(a, c)
    decreases |a|
  {
    if |a| > 0 && a[0] == b[0] && b[0] == c[0] {
      BelowTransitive(a[1..], b[1..], c[1..]);
    }
  }

  lemma {:induction false} BelowTotal(a: string, b: string)
    ensures a == b || Below(a, b) || Below(b, a)
    decreases |a|
  {
    if |a| > 0 && |b| > 0 && a[0] == b[0] {
      BelowTotal(a[1..], b[1..]);
      if a[1..] == b[1..] {
        assert a == [a[0]] + a[1..] && b == [b[0]] + b[1..];
      }
    }
  }

  /** `m` is the smallest key of `s`. */
  predicate IsLeast(m: string, s: set<string>) {
    m in s && forall x :: x in s && x != m ==> Below(m, x)
  }

  lemma {:induction false} LeastExists(s: set<string>)
    requires s != {}
    ensures exists m :: IsLeast(m, s)
    decreases |s|
  {
    var x :| x in s;
    if s == {x} {
      assert IsLeast(x, s);
    } else {
      LeastExists(s - {x});
      var m :| IsLeast(m, s - {x});
      if Below(x, m) {
        forall y | y in s && y != x
          ensures Below(x, y)
        {
          if y != m {
            BelowTransitive(x, m, y);
          }
        }
        assert IsLeast(x, s);
      } else {
        BelowTotal(x, m);
        assert IsLeast(m, s);
      }
    }
  }

  lemma LeastUnique(s: set<string>)
    ensures forall m, m' :: IsLeast(m, s) && IsLeast(m', s) ==> m == m'
  {
    forall m, m' | IsLeast(m, s) && IsLeast(m', s)
      ensures m == m'
    {
      if m != m' {
        BelowTransitive(m, m', m);
        BelowIrreflexive(m);
      }
    }
  }

  /** The first key a `std::map` iteration visits. */
  function Least(s: set<string>): (m: string)
    requires s != {}
    ensures IsLeast(m, s)
  {
    LeastExists(s);
    LeastUnique(s);
    var m :| IsLeast(m, s);
    m
  }

  predicate StrictlyAscending(ks: seq<string>) {
    forall i, j :: 0 <= i < j < |ks| ==> Below(ks[i], ks[j])
  }

  /** The keys of a `std::map` in iteration order. */
  function SortedKeys(s: set<string>): (ks: seq<string>)
    ensures |ks| == |s|
    ensures forall k :: k in ks <==> k in s
    ensures StrictlyAscending(ks)
    decreases |s|
  {
    if s == {} then []
    else
      var m := Least(s);
      var rest := SortedKeys(s - {m});
      assert forall j :: 0 <= j < |rest| ==> rest[j] in s - {m};
      [m] + rest
  }

  /** The iteration order is the only ascending listing of the keys. */
  lemma {:induction false} SortedKeysUnique(s: set<string>, ks: seq<string>)
    requires StrictlyAscending(ks)
    requires forall k :: k in ks <==> k in s
    ensures ks == SortedKeys(s)
    decreases |s|
  {
    if s != {} {
      assert |ks| > 0 by {
        var x :| x in s;
        assert x in ks;
      }
      forall x | x in s && x != ks[0]
        ensures Below(ks[0], x)
      {
        var j :| 0 <= j < |ks| && ks[j] == x;
      }
      assert IsLeast(ks[0], s);
      LeastUnique(s);
      var m := Least(s);
      assert m == ks[0];
      forall k
        ensures k in ks[1..] <==> k in s - {m}
      {
        if k in ks[1..] {
          var j :| 1 <= j < |ks| && ks[j] == k;
          BelowIrreflexive(k);
        }
        if k in s - {m} {
          var j :| 0 <= j < |ks| && ks[j] == k;
          assert j != 0;
          assert ks[1..][j - 1] == k;
        }
      }
      SortedKeysUnique(s - {m}, ks[1..]);
      assert ks == [m] + ks[1..];
    }
  }

  const CookiePrefix := "Set-Cookie: "

  /** `sizeof("Set-Cookie: =;\n")`: the fixed characters of a line, a
      newline that is never written, and the terminating NUL. */
  const LineOverhead: nat := |"Set-Cookie: =;\n"| + 1

  /** The text `cookie` holds when it is handed to libcurl. */
  function CookieLine(name: string, value: string): (line: string)
    ensures |line| == |name| + |value| + 14
    ensures line[|line| - 1] == ';'
  {
    CookiePrefix + name + "=" + value + ";"
  }

  /** The first position of `c` in `s`, or `|s|` when there is none. */
  function IndexOf(s: string, c: char): (i: nat)
    ensures i <= |s|
    ensures i < |s| ==> s[i] == c
    ensures forall j :: 0 <= j < i ==> s[j] != c
  {
    if |s| == 0 || s[0] == c then 0 else 1 + IndexOf(s[1..], c)
  }

  /** Reads a `Set-Cookie: name=value;` line back, splitting at the first `=`
      as a cookie parser does. */
  function ParseCookieLine(line: string): Option<(string, string)>
  {
    if |line| < |CookiePrefix| + 2 || line[..|CookiePrefix|] != CookiePrefix || line[|line| - 1] != ';' then None
    else
      var body := line[|CookiePrefix|..|line| - 1];
      var i := IndexOf(body, '=');
      if i == |body| then None else Some((body[..i], body[i + 1..]))
  }

  /** A line built from an entry whose name has no `=` reads back as that
      entry, and any line that reads back at all was built that way. */
  lemma CookieLineRoundTrip(name: string, value: string, line: string)
    ensures '=' !in name ==> ParseCookieLine(CookieLine(name, value)) == Some((name, value))
    ensures ParseCookieLine(line) == Some((name, value)) ==> '=' !in name && CookieLine(name, value) == line
  {
    if '=' !in name {
      var l := CookieLine(name, value);
      assert l[..|CookiePrefix|] == CookiePrefix;
      var body := l[|CookiePrefix|..|l| - 1];
      assert body == name + "=" + value;
      var i := IndexOf(body, '=');
      assert body[|name|] == '=';
      assert i == |name|;
      assert body[..i] == name;
      assert body[i + 1..] == value;
    }
    if ParseCookieLine(line) == Some((name, value)) {
      var body := line[|CookiePrefix|..|line| - 1];
      var i := IndexOf(body, '=');
      assert body == name + "=" + value;
      assert forall j :: 0 <= j < |name| ==> name[j] == body[j];
      assert line == line[..|CookiePrefix|] + body + ";";
    }
  }

  /** What the first loop of `add_cookie(map)` measures for the entry `k`. */
  function Need(cookies: map<string, string>, k: string): nat
    requires k in cookies
  {
    |k| + |cookies[k]| + LineOverhead
  }

  /** The first loop: the largest `Need` over the entries, 0 for none. */
  method MaxNeed(cookies: map<string, string>, keys: seq<string>) returns (size: nat)
    requires forall k :: k in keys <==> k in cookies
    ensures forall k :: k in cookies ==> Need(cookies, k) <= size
    ensures cookies == map[] ==> size == 0
    ensures cookies != map[] ==> exists k :: k in cookies && size == Need(cookies, k)
  {
    size := 0;
    for i := 0 to |keys|
      invariant forall j :: 0 <= j < i ==> Need(cookies, keys[j]) <= size
      invariant i == 0 ==> size == 0
      invariant i > 0 ==> exists j :: 0 <= j < i && size == Need(cookies, keys[j])
    {
      if Need(cookies, keys[i]) > size {
        size := Need(cookies, keys[i]);
      }
    }
    if |keys| > 0 {
      assert keys[0] in keys;
    }
    if cookies != map[] {
      var k :| k in cookies;
      assert k in keys;
      var j :| 0 <= j < |keys| && size == Need(cookies, keys[j]);
      assert keys[j] in cookies;
    }
    forall k | k in cookies
      ensures Need(cookies, k) <= size
    {
      assert k in keys;
    }
  }

  /** The second loop: the line built for each key, in the order given. */
  method BuildLines(cookies: map<string, string>, keys: seq<string>) returns (lines: seq<string>)
    requires forall k :: k in keys ==> k in cookies
    ensures |lines| == |keys|
    ensures forall i :: 0 <= i < |keys| ==> lines[i] == CookieLine(keys[i], cookies[keys[i]])
  {
    lines := [];
    for i := 0 to |keys|
      invariant |lines| == i
      invariant forall j :: 0 <= j < i ==> lines[j] == CookieLine(keys[j], cookies[keys[j]])
    {
      lines := lines + [CookieLine(keys[i], cookies[keys[i]])];
    }
  }

  /** `add_cookie(map)`. `reserve` is the capacity requested for `cookie`;
      `lines` are its successive contents and `reqs` the calls
      `curl_easy_setopt(handle_, CURLOPT_COOKIELIST, cookie.c_str())` made
      with them on `e`, so each line reaches libcurl cut at its first NUL.
      The codes those calls return are dropped: unlike `Session.AddCookie`,
      the call never throws, whatever `lib` answers to any of `reqs`. */
  method AddCookies(lib: Library, e: Easy, cookies: map<string, string>)
    returns (reserve: nat, lines: seq<string>, reqs: seq<Request>, out: Outcome<Error>)
    ensures out.Pass?
    ensures |lines| == |cookies| && |reqs| == |lines|
    ensures var keys := SortedKeys(cookies.Keys);
      forall i :: 0 <= i < |lines| ==> lines[i] == CookieLine(keys[i], cookies[keys[i]])
    ensures forall i :: 0 <= i < |reqs| ==>
      reqs[i] == SetOpt(e.handle, CookieList, StringValue(CString(lines[i])))
    ensures forall k :: k in cookies ==> Need(cookies, k) < reserve
    ensures cookies == map[] ==> reserve == 1
    ensures cookies != map[] ==> exists k :: k in cookies && reserve == Need(cookies, k) + 1
  {
    var keys := SortedKeys(cookies.Keys);
    var size := MaxNeed(cookies, keys);
    reserve := size + 1;
    lines := BuildLines(cookies, keys);
    reqs := seq(|lines|, i requires 0 <= i < |lines| => SetOpt(e.handle, CookieList, StringValue(CString(lines[i]))));
    out := Pass;
  }

  /** Every line fits the reserved capacity, its NUL included, with at
      least three characters to spare: `sizeof` counted a newline and a NUL the
      line does not have, and `reserve` adds one more. The longest line
      leaves exactly those three. */
  lemma ReserveCoversEveryLine(cookies: map<string, string>, reserve: nat, lines: seq<string>)
    requires |lines| == |cookies|
    requires forall i :: 0 <= i < |lines| ==>
      lines[i] == CookieLine(SortedKeys(cookies.Keys)[i], cookies[SortedKeys(cookies.Keys)[i]])
    requires forall k :: k in cookies ==> Need(cookies, k) < reserve
    requires cookies != map[] ==> exists k :: k in cookies && reserve == Need(cookies, k) + 1
    ensures forall i :: 0 <= i < |lines| ==> |lines[i]| + 3 <= reserve
    ensures |lines| > 0 ==> exists i :: 0 <= i < |lines| && |lines[i]| + 3 == reserve
  {
    var keys := SortedKeys(cookies.Keys);
    forall i | 0 <= i < |lines|
      ensures |lines[i]| + 3 <= reserve
    {
      assert keys[i] in cookies;
    }
    if |lines| > 0 {
      var k :| k in cookies && reserve == Need(cookies, k) + 1;
      assert k in keys;
      var i :| 0 <= i < |keys| && keys[i] == k;
      assert |lines[i]| + 3 == reserve;
    }
  }
}
