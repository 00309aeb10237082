/** The in-memory receive path of `curl::easy` (src/curl++.cpp, lines 137-149
    and 196-201): the write callback appends each delivered chunk to a
    `std::string`, and a transfer is the fold of its chunks into that string. */
module Sink {

  import opened Wrappers
  import opened Errors
  import opened Curl
  import opened Session

  /** libcurl's promise to a write callback: `ptr` has `size * nmemb` bytes. */
  predicate WellFormed(c: Chunk) {
    c.size * c.nmemb <= |c.ptr|
  }

  /** The bytes of a chunk: the first `size * nmemb` behind `ptr`. */
  function Payload(c: Chunk): string
    requires WellFormed(c)
  {
    c.ptr[..c.size * c.nmemb]
  }

  /** The effect of one callback: the buffer after it and the count it
      returns to libcurl. */
  datatype Written = Written(buffer: string, returned: nat)

  /** `recv_into_writefunc_string_`. */
  function WriteString(buffer: string, c: Chunk): (r: Written)
    requires WellFormed(c)
    ensures r.returned == c.size * c.nmemb
    ensures |r.buffer| == |buffer| + r.returned
    ensures |buffer| <= |r.buffer| && r.buffer[..|buffer|] == buffer
    ensures |buffer| <= |r.buffer| && r.buffer[|buffer|..] == Payload(c)
  {
    var n := c.size * c.nmemb;
    Written(buffer + c.ptr[..n], n)
  }

  predicate AllWellFormed(cs: seq<Chunk>) {
    forall i :: 0 <= i < |cs| ==> WellFormed(cs[i])
  }

  /** Everything a sequence of chunks carries, in delivery order. */
  function Received(cs: seq<Chunk>): string
    requires AllWellFormed(cs)
  {
    if |cs| == 0 then "" else Received(cs[..|cs| - 1]) + Payload(cs[|cs| - 1])
  }

  /** Receiving is compositional: the chunks of two consecutive deliveries
      carry what the deliveries carry, one after the other. */
  lemma {:induction false} ReceivedAppend(a: seq<Chunk>, b: seq<Chunk>)
    requires AllWellFormed(a) && AllWellFormed(b)
    ensures AllWellFormed(a + b)
    ensures Received(a + b) == Received(a) + Received(b)
    decreases |b|
  {
    if |b| > 0 {
      var b' := b[..|b| - 1];
      assert (a + b)[..|a + b| - 1] == a + b';
      ReceivedAppend(a, b');
    } else {
      assert a + b == a;
    }
  }

  /** Both `set` calls of `recv_into` succeed: the buffer and the string
      callback are installed on the handle. */
  predicate Installed(lib: Library, e: Easy) {
    && lib.status(SetOpt(e.handle, WriteData, ObjectPointer("buffer"))) == CURLE_OK
    && lib.status(SetOpt(e.handle, WriteFunction, FunctionPointer("recv_into_writefunc_string_"))) == CURLE_OK
  }

  /** `recv_into(std::string &)`: install `buffer` and the string callback,
      then perform. `acks` are the counts the callback returned. A `set`
      that fails throws before anything is received; a transfer that fails
      throws after its chunks were appended, and those stay in the caller's
      buffer. */
  method RecvInto(lib: Library, e: Easy, buffer: string) returns (b: string, acks: seq<nat>, out: Outcome<Error>)
    requires AllWellFormed(lib.delivers(e.handle))
    ensures out.Pass? <==> Installed(lib, e) && lib.status(PerformTransfer(e.handle)) == CURLE_OK
    ensures !Installed(lib, e) ==> b == buffer && acks == []
    ensures Installed(lib, e) ==> b == buffer + Received(lib.delivers(e.handle))
    ensures Installed(lib, e) ==> |acks| == |lib.delivers(e.handle)|
    ensures Installed(lib, e) ==> forall i :: 0 <= i < |acks| ==> acks[i] == |Payload(lib.delivers(e.handle)[i])|
  {
    b := buffer;
    acks := [];
    out := Set(lib, e, WriteData, ObjectPointer("buffer"));
    if out.Fail? {
      return;
    }
    out := Set(lib, e, WriteFunction, FunctionPointer("recv_into_writefunc_string_"));
    if out.Fail? {
      return;
    }
    var chunks := lib.delivers(e.handle);
    for i := 0 to |chunks|
      invariant b == buffer + Received(chunks[..i])
      invariant |acks| == i
      invariant forall j :: 0 <= j < i ==> acks[j] == |Payload(chunks[j])|
    {
      var r := WriteString(b, chunks[i]);
      assert chunks[..i + 1][..i] == chunks[..i];
      b, acks := r.buffer, acks + [r.returned];
    }
    assert chunks[..|chunks|] == chunks;
    out := Perform(lib, e);
  }

  /** `get()`: `recv_into` on a fresh, empty string, which is returned. */
  method Get(lib: Library, e: Easy) returns (r: Result<string, Error>)
    requires AllWellFormed(lib.delivers(e.handle))
    ensures r.Success? <==> Installed(lib, e) && lib.status(PerformTransfer(e.handle)) == CURLE_OK
    ensures r.Success? ==> r.value == Received(lib.delivers(e.handle))
  {
    var b, _, out := RecvInto(lib, e, "");
    if out.Fail? {
      return Failure(out.error);
    }
    r := Success(b);
  }
}
