/**
 * The `zipper` after-request hook of `gzipped`: when the client's
 * `Accept-Encoding` mentions gzip it clears `direct_passthrough`, and when the
 * response is also a 2xx that is not yet encoded it replaces the body with its
 * gzip and sets `Content-Encoding`, `Vary` and `Content-Length`.
 */
module Compression {
  import Digits
  import opened Http

  newtype byte = x: int | 0 <= x < 256

  const AcceptEncodingHeader := "Accept-Encoding"
  const ContentEncodingHeader := "Content-Encoding"
  const VaryHeader := "Vary"
  const ContentLengthHeader := "Content-Length"

  /** `request.headers.get('Accept-Encoding', '')` */
  function AcceptEncoding(requestHeaders: Headers): (r: string)
    ensures AcceptEncodingHeader in requestHeaders ==> r == requestHeaders[AcceptEncodingHeader]
    ensures AcceptEncodingHeader !in requestHeaders ==> r == ""
  {
    if AcceptEncodingHeader in requestHeaders then requestHeaders[AcceptEncodingHeader] else ""
  }

  function LowerChar(c: char): char {
    if 'A' <= c <= 'Z' then (c as int - 'A' as int + 'a' as int) as char else c
  }

  /** `s.lower()` on ASCII letters. */
  function Lower(s: string): (r: string)
    ensures |r| == |s|
    ensures forall i :: 0 <= i < |s| ==> r[i] == LowerChar(s[i])
  {
    if s == [] then [] else [LowerChar(s[0])] + Lower(s[1..])
  }

  /** `t` occurs in `s` starting at offset `i`. */
  predicate OccursAt(s: string, t: string, i: int) {
    0 <= i <= |s| - |t| && s[i..i + |t|] == t
  }

  /** Python's `t in s` for strings: `t` occurs in `s` at some offset. */
  function Contains(s: string, t: string): (b: bool)
    ensures b <==> exists i :: OccursAt(s, t, i)
  {
    if |s| < |t| then false
    else if s[..|t|] == t then
      assert OccursAt(s, t, 0);
      true
    else
      var rest := Contains(s[1..], t);
      assert forall j :: OccursAt(s[1..], t, j) <==> OccursAt(s, t, j + 1);
      assert (exists i :: OccursAt(s, t, i)) ==> rest by {
        if exists i :: OccursAt(s, t, i) {
          var i :| OccursAt(s, t, i);
          assert OccursAt(s[1..], t, i - 1);
        }
      }
      rest
  }

  /** `'gzip' in accept_encoding.lower()` */
  predicate AcceptsGzip(acceptEncoding: string)
    ensures AcceptsGzip(acceptEncoding) <==> exists i :: GzipAt(acceptEncoding, i)
  {
    var l := Lower(acceptEncoding);
    assert forall i :: OccursAt(l, "gzip", i) <==> GzipAt(acceptEncoding, i) by {
      forall i ensures OccursAt(l, "gzip", i) <==> GzipAt(acceptEncoding, i) {
        if 0 <= i <= |l| - 4 {
          assert l[i..i + 4] == [l[i], l[i + 1], l[i + 2], l[i + 3]];
        }
      }
    }
    Contains(l, "gzip")
  }

  /** The four characters at `i` spell `gzip` in any mix of upper and lower case. */
  predicate GzipAt(s: string, i: int) {
    && 0 <= i <= |s| - 4
    && (s[i] == 'g' || s[i] == 'G') && (s[i + 1] == 'z' || s[i + 1] == 'Z')
    && (s[i + 2] == 'i' || s[i + 2] == 'I') && (s[i + 3] == 'p' || s[i + 3] == 'P')
  }

  /** The client's choice of case does not matter. */
  lemma AcceptsGzipIgnoresCase(acceptEncoding: string)
    ensures AcceptsGzip(Lower(acceptEncoding)) == AcceptsGzip(acceptEncoding)
  {
    var l := Lower(acceptEncoding);
    assert Lower(l) == l by {
      assert forall i :: 0 <= i < |l| ==> Lower(l)[i] == l[i];
    }
  }

  lemma AcceptsGzipMixedCase()
    ensures AcceptsGzip("GZip")
  {
    var l := Lower("GZip");
    assert l[0] == 'g' && l[1] == 'z' && l[2] == 'i' && l[3] == 'p';
    assert l[0..4] == "gzip";
    assert OccursAt(l, "gzip", 0);
  }

  lemma EmptyAcceptEncodingRefuses()
    ensures !AcceptsGzip("")
  {
  }

  /** The part of a response the hook reads and writes. */
  datatype ResponseState = ResponseState(
    statusCode: int,
    data: seq<byte>,
    headers: Headers,
    directPassthrough: bool)

  /** The test of line 66 passes: the status is in the 2xx class. */
  predicate IsSuccess(statusCode: int)
    ensures IsSuccess(statusCode) <==> statusCode / 100 == 2
  {
    !(statusCode < 200 || statusCode >= 300)
  }

  /** The response after `zipper`, with `gzip` standing for the `GzipFile` byte transform. */
  function Zipped(r: ResponseState, acceptEncoding: string, gzip: seq<byte> -> seq<byte>): (z: ResponseState)
    ensures z.statusCode == r.statusCode
    ensures z.directPassthrough == (r.directPassthrough && !AcceptsGzip(acceptEncoding))
    ensures r.headers.Keys <= z.headers.Keys
    ensures z.data == r.data || z.data == gzip(r.data)
    ensures z.headers == r.headers || (ContentEncodingHeader !in r.headers && ContentEncodingHeader in z.headers && z.headers[ContentEncodingHeader] == "gzip")
    ensures (z.headers != r.headers || z.data != r.data) ==> IsSuccess(r.statusCode) && AcceptsGzip(acceptEncoding)
  {
    if !AcceptsGzip(acceptEncoding) then r
    else if !IsSuccess(r.statusCode) || ContentEncodingHeader in r.headers then r.(directPassthrough := false)
    else
      var data := gzip(r.data);
      r.(directPassthrough := false,
         data := data,
         headers := r.headers[ContentEncodingHeader := "gzip"]
                             [VaryHeader := AcceptEncodingHeader]
                             [ContentLengthHeader := Digits.Decimal(|data|)])
  }

  /** A client that does not accept gzip gets the response exactly as it was. */
  lemma ZipWithoutGzipChangesNothing(r: ResponseState, acceptEncoding: string, gzip: seq<byte> -> seq<byte>)
    requires !AcceptsGzip(acceptEncoding)
    ensures Zipped(r, acceptEncoding, gzip) == r
  {
  }

  /** A non-2xx or already encoded response only loses `direct_passthrough`. */
  lemma ZipSkipsUnsuitableResponse(r: ResponseState, acceptEncoding: string, gzip: seq<byte> -> seq<byte>)
    requires AcceptsGzip(acceptEncoding)
    requires !IsSuccess(r.statusCode) || ContentEncodingHeader in r.headers
    ensures Zipped(r, acceptEncoding, gzip) == r.(directPassthrough := false)
  {
  }

  /** When it applies: gzip of the old body, the three headers set, every other header untouched. */
  lemma ZipCompresses(r: ResponseState, acceptEncoding: string, gzip: seq<byte> -> seq<byte>)
    requires AcceptsGzip(acceptEncoding) && IsSuccess(r.statusCode) && ContentEncodingHeader !in r.headers
    ensures var z := Zipped(r, acceptEncoding, gzip);
      && z.statusCode == r.statusCode
      && z.data == gzip(r.data)
      && !z.directPassthrough
      && z.headers.Keys == r.headers.Keys + {ContentEncodingHeader, VaryHeader, ContentLengthHeader}
      && z.headers[ContentEncodingHeader] == "gzip"
      && z.headers[VaryHeader] == "Accept-Encoding"
      && Digits.AllDigits(z.headers[ContentLengthHeader])
      && Digits.Value(z.headers[ContentLengthHeader]) == |z.data|
      && forall k :: k in r.headers && k != ContentEncodingHeader && k != VaryHeader && k != ContentLengthHeader
           ==> z.headers[k] == r.headers[k]
  {
  }

  /** The hook compresses at most once: a second application changes nothing. */
  lemma ZipIdempotent(r: ResponseState, acceptEncoding: string, gzip: seq<byte> -> seq<byte>)
    ensures Zipped(Zipped(r, acceptEncoding, gzip), acceptEncoding, gzip) == Zipped(r, acceptEncoding, gzip)
  {
  }

  /** A Flask response object whose fields the hook updates in place. */
  class Response {
    var statusCode: int
    var data: seq<byte>
    var headers: Headers
    var directPassthrough: bool

    function State(): ResponseState
      reads this
    {
      ResponseState(statusCode, data, headers, directPassthrough)
    }

    constructor (statusCode: int, data: seq<byte>, headers: Headers, directPassthrough: bool)
      ensures State() == ResponseState(statusCode, data, headers, directPassthrough)
    {
      this.statusCode := statusCode;
      this.data := data;
      this.headers := headers;
      this.directPassthrough := directPassthrough;
    }

    /** `zipper(response)`, given the request's `Accept-Encoding` value. */
    method Zip(acceptEncoding: string, gzip: seq<byte> -> seq<byte>)
      modifies this
      ensures State() == Zipped(old(State()), acceptEncoding, gzip)
    {
      if !Contains(Lower(acceptEncoding), "gzip") {
        return;
      }
      directPassthrough := false;

      if statusCode < 200 || statusCode >= 300 || ContentEncodingHeader in headers {
        return;
      }

      data := gzip(data);
      headers := headers[ContentEncodingHeader := "gzip"];
      headers := headers[VaryHeader := "Accept-Encoding"];
      headers := headers[ContentLengthHeader := Digits.Decimal(|data|)];
    }
  }
}
