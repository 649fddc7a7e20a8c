/** The two response builders of the server, `empty_response` and
    `body_response`, the three status lines it sends, and a reader of the
    responses they build. */
module Response {
  import opened Outcomes
  import opened Text
  import opened Decimal

  const OK: string := "HTTP/1.1 200 OK"
  const UNAUTHORIZED: string := "HTTP/1.1 401 Unauthorized"
  const NOT_IMPLEMENTED: string := "HTTP/1.1 501 Not Implemented"

  /** The three status lines are distinct and hold no CR. */
  lemma {:induction false} StatusLines()
    ensures '\r' !in OK && '\r' !in UNAUTHORIZED && '\r' !in NOT_IMPLEMENTED
    ensures OK != UNAUTHORIZED && OK != NOT_IMPLEMENTED && UNAUTHORIZED != NOT_IMPLEMENTED
  {
    assert |OK| == 15 && |UNAUTHORIZED| == 25 && |NOT_IMPLEMENTED| == 28;
  }

  /** What sits between the status line and the length value. */
  const LENGTH_HEADER: string := "\r\nContent-Length: "

  /** `body_response`: the status line, a `Content-Length` header, a blank
      line, then the contents. The response starts with the status line and
      ends with the contents, verbatim. */
  function BodyResponse(status: string, contents: string): (r: string)
    ensures |r| > |status| + |contents|
    ensures r[..|status|] == status
    ensures r[|r| - |contents|..] == contents
  {
    status + LENGTH_HEADER + NatToDecimal(Utf8Length(contents)) + "\r\n\r\n" + contents
  }

  /** `empty_response`: the same response as `body_response` with no
      contents. */
  function EmptyResponse(status: string): (r: string)
    ensures r == BodyResponse(status, "")
  {
    status + "\r\nContent-Length: 0\r\n\r\n"
  }

  /** A response as a client reads it: its status line, the value of its
      `Content-Length` header and its body. */
  datatype Message = Message(status: string, contentLength: nat, body: string)

  /** Reads a response of the shape the server sends: a status line ended
      by CR, the `Content-Length` header with a decimal value, a blank
      line, and a body whose UTF-8 length is that value. Anything else
      reads as `None`. */
  function ParseResponse(r: string): (m: Option<Message>)
    ensures m.Some? ==> Utf8Length(m.value.body) == m.value.contentLength
    ensures m.Some? ==> '\r' !in m.value.status
  {
    var i := IndexOf(r, '\r');
    var rest := r[i..];
    if |rest| < |LENGTH_HEADER| || rest[..|LENGTH_HEADER|] != LENGTH_HEADER then None
    else
      var tail := rest[|LENGTH_HEADER|..];
      var d := DigitRun(tail);
      var after := tail[d..];
      if d == 0 || |after| < 4 || after[..4] != "\r\n\r\n" then None
      else
        var n := ParseDecimal(tail[..d]);
        var body := after[4..];
        if n != Utf8Length(body) then None
        else Some(Message(r[..i], n, body))
  }

  /** Every response `body_response` builds reads back as its status line,
      the UTF-8 length of the contents, and the contents. */
  lemma {:induction false} ResponseRoundTrip(status: string, contents: string)
    requires '\r' !in status
    ensures ParseResponse(BodyResponse(status, contents))
         == Some(Message(status, Utf8Length(contents), contents))
  {
    var digits := NatToDecimal(Utf8Length(contents));
    DecimalRoundTrip(Utf8Length(contents));
    ReadsFramedResponse(status, digits, contents);
  }

  /** A status line, a length header with a numeral and a body of that
      many bytes read back as those three parts. */
  lemma {:induction false} ReadsFramedResponse(status: string, digits: string, body: string)
    requires '\r' !in status
    requires digits != [] && AllDigits(digits) && ParseDecimal(digits) == Utf8Length(body)
    ensures ParseResponse(status + LENGTH_HEADER + digits + "\r\n\r\n" + body)
         == Some(Message(status, Utf8Length(body), body))
  {
    var tail := digits + "\r\n\r\n" + body;
    var rest := LENGTH_HEADER + tail;
    var r := status + rest;
    assert r == status + LENGTH_HEADER + digits + "\r\n\r\n" + body;
    FirstCarriageReturn(status, rest);
    var i := IndexOf(r, '\r');
    assert r[..i] == status && r[i..] == rest;
    assert |rest| >= |LENGTH_HEADER| && rest[..|LENGTH_HEADER|] == LENGTH_HEADER;
    assert rest[|LENGTH_HEADER|..] == tail;
    assert tail == digits + ("\r\n\r\n" + body);
    DigitRunStops(digits, "\r\n\r\n" + body);
    var d := DigitRun(tail);
    assert tail[..d] == digits;
    var after := tail[d..];
    assert after == "\r\n\r\n" + body;
    assert |after| >= 4 && after[..4] == "\r\n\r\n";
    assert after[4..] == body;
  }

  lemma {:induction false} FirstCarriageReturn(status: string, rest: string)
    requires '\r' !in status && rest != [] && rest[0] == '\r'
    ensures IndexOf(status + rest, '\r') == |status|
  {
    var r := status + rest;
    assert r[|status|] == '\r';
    assert forall k :: 0 <= k < |status| ==> r[k] == status[k];
  }

  lemma {:induction false} DigitRunStops(digits: string, rest: string)
    requires AllDigits(digits) && rest != [] && !IsDigit(rest[0])
    ensures DigitRun(digits + rest) == |digits|
  {
    var t := digits + rest;
    var d := DigitRun(t);
    assert t[|digits|] == rest[0];
  }

  /** The converse of `ResponseRoundTrip`: whatever reads as a response is
      the response `body_response` builds from its status line and body,
      unless its length numeral carries a leading zero, which `format!`
      never prints. */
  lemma {:induction false} ParseResponseInverse(r: string)
    requires ParseResponse(r).Some?
    ensures var m := ParseResponse(r).value; var j := |m.status| + |LENGTH_HEADER|;
      r == BodyResponse(m.status, m.body) || (j + 1 < |r| && r[j] == '0' && IsDigit(r[j + 1]))
  {
    var m := ParseResponse(r).value;
    var i := IndexOf(r, '\r');
    var rest := r[i..];
    var tail := rest[|LENGTH_HEADER|..];
    var d := DigitRun(tail);
    var digits := tail[..d];
    var after := tail[d..];
    assert r[..i] == m.status && after[4..] == m.body;
    Reassemble(r, i, rest, tail, d, after);
    FramedNumeral(m.status, digits, m.body);
  }

  /** The pieces a response is read in put together give the response. */
  lemma {:induction false} Reassemble(r: string, i: nat, rest: string, tail: string, d: nat, after: string)
    requires i <= |r| && rest == r[i..]
    requires |LENGTH_HEADER| <= |rest| && rest[..|LENGTH_HEADER|] == LENGTH_HEADER
    requires tail == rest[|LENGTH_HEADER|..] && d <= |tail| && after == tail[d..]
    requires |after| >= 4 && after[..4] == "\r\n\r\n"
    ensures r == r[..i] + LENGTH_HEADER + tail[..d] + "\r\n\r\n" + after[4..]
  {
    SliceJoin(r, i);
    SliceJoin(rest, |LENGTH_HEADER|);
    SliceJoin(tail, d);
    SliceJoin(after, 4);
    Regroup(r[..i], LENGTH_HEADER, tail[..d], "\r\n\r\n", after[4..]);
  }

  lemma {:induction false} Regroup(a: string, b: string, c: string, d: string, e: string)
    ensures a + (b + (c + (d + e))) == a + b + c + d + e
  {
  }

  /** A framed response whose numeral has no leading zero is the one
      `body_response` builds; otherwise its numeral starts with `0` and
      goes on with a digit. */
  lemma {:induction false} FramedNumeral(status: string, digits: string, body: string)
    requires digits != [] && AllDigits(digits) && ParseDecimal(digits) == Utf8Length(body)
    ensures var r := status + LENGTH_HEADER + digits + "\r\n\r\n" + body; var j := |status| + |LENGTH_HEADER|;
      r == BodyResponse(status, body) || (j + 1 < |r| && r[j] == '0' && IsDigit(r[j + 1]))
  {
    if Canonical(digits) {
      CanonicalRoundTrip(digits);
    } else {
      var r := status + LENGTH_HEADER + digits + "\r\n\r\n" + body;
      var j := |status| + |LENGTH_HEADER|;
      assert r == (status + LENGTH_HEADER) + (digits + ("\r\n\r\n" + body));
      assert r[j] == digits[0] && r[j + 1] == digits[1];
    }
  }

  /** The one response the server sends with no contents reads back with a
      length of zero and an empty body. */
  lemma {:induction false} EmptyResponseReads(status: string)
    requires '\r' !in status
    ensures ParseResponse(EmptyResponse(status)) == Some(Message(status, 0, ""))
  {
    ResponseRoundTrip(status, "");
  }
}
