/** The buffered response writer of a retryable attempt, against writing to the client
    directly. */
module RetryWriters {
  import opened Wire

  type Bytes = seq<bv8>

  /** The codes an http.ResponseWriter takes. */
  type Status = code: int | 100 <= code <= 999 witness 200

  datatype Call = WriteHeader(status: Status) | Write(bytes: Bytes)

  // ---------------------------------------------------------------------------
  // The client's writer
  // ---------------------------------------------------------------------------

  /** What the client has been sent; no status yet means only interim responses at most. */
  datatype Response = Response(status: Option<Status>, body: Bytes)

  const NOTHING: Response := Response(None, [])

  /** An interim status: the final one is still to come. */
  predicate Informational(status: Status) { status <= 199 && status != 101 }

  predicate BodyAllowed(status: Status) { status >= 200 && status != 204 && status != 304 }

  function Committed(r: Response, status: Status): Response {
    if r.status.Some? || Informational(status) then r else r.(status := Some(status))
  }

  /** One call on the client's writer: the first final status sticks, a body implies 200. */
  function Put(r: Response, c: Call): Response {
    match c
    case WriteHeader(status) => Committed(r, status)
    case Write(bytes) =>
      var q := Committed(r, 200);
      if BodyAllowed(q.status.value) then q.(body := q.body + bytes) else q
  }

  function PutAll(r: Response, calls: seq<Call>): Response {
    if calls == [] then r else Put(PutAll(r, calls[..|calls| - 1]), calls[|calls| - 1])
  }

  /** The response once the handler returns: a status never written is 200. */
  function Finished(r: Response): Response { Committed(r, 200) }

  // ---------------------------------------------------------------------------
  // The buffer
  // ---------------------------------------------------------------------------

  datatype Buffer = Buffer(wroteHeader: bool, status: Status, body: Bytes)

  const EMPTY: Buffer := Buffer(false, 200, [])

  function Hold(b: Buffer, c: Call): Buffer {
    match c
    case WriteHeader(status) => if b.wroteHeader then b else b.(wroteHeader := true, status := status)
    case Write(bytes) => b.(wroteHeader := true, body := b.body + bytes)
  }

  function HoldAll(b: Buffer, calls: seq<Call>): Buffer {
    if calls == [] then b else Hold(HoldAll(b, calls[..|calls| - 1]), calls[|calls| - 1])
  }

  function Flush(b: Buffer, r: Response): Response {
    Put(Put(r, WriteHeader(b.status)), Write(b.body))
  }

  // ---------------------------------------------------------------------------
  // What each form amounts to
  // ---------------------------------------------------------------------------

  /** Everything written, whether or not it may be sent. */
  function Written(calls: seq<Call>): Bytes {
    if calls == [] then []
    else
      var c := calls[|calls| - 1];
      Written(calls[..|calls| - 1]) + (if c.Write? then c.bytes else [])
  }

  /** The status of the first call that settles one, 200 if none does. */
  function SettledStatus(calls: seq<Call>): Status {
    if calls == [] || calls[0].Write? then 200
    else if Informational(calls[0].status) then SettledStatus(calls[1..])
    else calls[0].status
  }

  predicate Settles(c: Call) { c.Write? || !Informational(c.status) }

  function FullResponse(status: Status, body: Bytes): Response {
    Response(Some(status), if BodyAllowed(status) then body else [])
  }

  predicate AnySettles(calls: seq<Call>) {
    exists k :: 0 <= k < |calls| && Settles(calls[k])
  }

  lemma AnySettlesTail(calls: seq<Call>)
    requires calls != [] && !Settles(calls[0])
    ensures AnySettles(calls) <==> AnySettles(calls[1..])
  {
    if k :| 0 <= k < |calls| && Settles(calls[k]) { assert calls[1..][k - 1] == calls[k]; }
  }

  /** The settled status once one more call is made. */
  lemma {:induction false} SettledSnoc(calls: seq<Call>)
    requires calls != []
    ensures var init, c := calls[..|calls| - 1], calls[|calls| - 1];
      SettledStatus(calls) ==
        if AnySettles(init) || !Settles(c) then SettledStatus(init) else if c.Write? then 200 else c.status
    ensures !AnySettles(calls) ==> SettledStatus(calls) == 200
  {
    var init := calls[..|calls| - 1];
    if |calls| == 1 {
      assert init == [];
    } else if Settles(calls[0]) {
      assert Settles(init[0]);
    } else {
      var tail := calls[1..];
      SettledSnoc(tail);
      assert tail[..|tail| - 1] == init[1..];
      AnySettlesTail(init);
      AnySettlesTail(calls);
    }
  }

  /** One call on a response of known status and body. */
  lemma PutResponse(r: Response, c: Call, status: Status, body: Bytes)
    requires Finished(r) == FullResponse(status, body) && (r.status.None? ==> status == 200 && body == [])
    ensures Put(r, c).status.Some? <==> r.status.Some? || Settles(c)
    ensures Finished(Put(r, c)) == FullResponse(
      if r.status.Some? || !Settles(c) then status else if c.Write? then 200 else c.status,
      body + (if c.Write? then c.bytes else []))
  {}

  /** Written directly: the settled status, and the body if that status has one. */
  lemma {:induction false} DirectResponse(calls: seq<Call>)
    ensures Finished(PutAll(NOTHING, calls)) == FullResponse(SettledStatus(calls), Written(calls))
    ensures PutAll(NOTHING, calls).status.Some? <==> AnySettles(calls)
    ensures PutAll(NOTHING, calls).status.None? ==> Written(calls) == []
  {
    if calls == [] {
    } else {
      var init, c := calls[..|calls| - 1], calls[|calls| - 1];
      DirectResponse(init);
      SettledSnoc(calls);
      assert AnySettles(calls) <==> AnySettles(init) || Settles(c) by {
        assert calls == init + [c];
      }
      PutResponse(PutAll(NOTHING, init), c, SettledStatus(init), Written(init));
    }
  }

  /** Held back: the first call alone decides the status. */
  lemma {:induction false} HeldBuffer(calls: seq<Call>)
    ensures HoldAll(EMPTY, calls) == Buffer(calls != [],
      if calls == [] || calls[0].Write? then 200 else calls[0].status, Written(calls))
  {
    if calls == [] {
    } else {
      var init := calls[..|calls| - 1];
      HeldBuffer(init);
      assert init != [] ==> init[0] == calls[0];
    }
  }

  /** Status and body the client ends up with when an attempt is buffered and flushed. */
  function ViaBuffer(calls: seq<Call>): Response {
    Finished(Flush(HoldAll(EMPTY, calls), NOTHING))
  }

  /** Buffering goes unseen exactly when the attempt does not open with an interim status
      ahead of a final one other than 200. */
  lemma BufferingUnseenIff(calls: seq<Call>)
    ensures ViaBuffer(calls) == Finished(PutAll(NOTHING, calls))
            <==> calls == [] || Settles(calls[0]) || SettledStatus(calls) == 200
  {
    HeldBuffer(calls);
    DirectResponse(calls);
    if calls != [] && !Settles(calls[0]) {
      assert ViaBuffer(calls) == FullResponse(200, Written(calls));
    }
  }

  predicate FinalStatuses(calls: seq<Call>) {
    forall k :: 0 <= k < |calls| ==> Settles(calls[k])
  }

  /** Early hints ahead of a 404 reach the client as a 200 once buffered. */
  lemma EarlyHintsBecomeOk()
    ensures var calls := [WriteHeader(103), WriteHeader(404), Write([1])];
      && Finished(PutAll(NOTHING, calls)) == Response(Some(404), [1])
      && ViaBuffer(calls) == Response(Some(200), [1])
  {
    var calls := [WriteHeader(103), WriteHeader(404), Write([1])];
    HintsSettle(calls);
    HintsWrite(calls);
    assert Finished(PutAll(NOTHING, calls)) == FullResponse(404, [1]) by { DirectResponse(calls); }
    assert HoldAll(EMPTY, calls) == Buffer(true, 103, [1]) by { HeldBuffer(calls); }
  }

  lemma HintsSettle(calls: seq<Call>)
    requires |calls| == 3 && calls[0] == WriteHeader(103) && calls[1] == WriteHeader(404)
    ensures SettledStatus(calls) == 404
  {
    assert calls[1..][0] == calls[1];
    assert SettledStatus(calls[1..]) == 404;
  }

  lemma HintsWrite(calls: seq<Call>)
    requires |calls| == 3 && calls[0].WriteHeader? && calls[1].WriteHeader? && calls[2] == Write([1])
    ensures Written(calls) == [1]
  {
    var one, two := calls[..1], calls[..2];
    assert one[..0] == [] && Written(one) == [];
    assert two[..1] == one && Written(two) == [];
  }

  /** Which statuses settle a response and which have a body: 1xx are interim except 101, and
      no 1xx, 204 or 304 has a body. */
  lemma StatusClasses(status: Status, body: Bytes)
    ensures PutAll(NOTHING, [WriteHeader(status)]).status
         == if 100 <= status <= 199 && status != 101 then None else Some(status)
    ensures Put(Response(Some(status), []), Write(body)).body
         == if status < 200 || status == 204 || status == 304 then [] else body
  {
    assert [WriteHeader(status)][..0] == [];
    assert PutAll(NOTHING, []) == NOTHING;
  }

  // ---------------------------------------------------------------------------
  // The writers as objects
  // ---------------------------------------------------------------------------

  /** The server's own response writer. */
  class ClientWriter {
    var sent: Response

    constructor ()
      ensures sent == NOTHING
    {
      sent := NOTHING;
    }

    method WriteHeader(status: Status)
      modifies this
      ensures sent == Put(old(sent), Call.WriteHeader(status))
    {
      sent := Committed(sent, status);
    }

    method Write(bytes: Bytes)
      modifies this
      ensures sent == Put(old(sent), Call.Write(bytes))
    {
      sent := Put(sent, Call.Write(bytes));
    }

    /** A handler that makes these calls. */
    method Serve(calls: seq<Call>)
      modifies this
      ensures sent == PutAll(old(sent), calls)
    {
      for i := 0 to |calls|
        invariant sent == PutAll(old(sent), calls[..i])
      {
        assert calls[..i + 1][..i] == calls[..i];
        match calls[i] {
          case WriteHeader(status) => WriteHeader(status);
          case Write(bytes) => Write(bytes);
        }
      }
      assert calls[..|calls|] == calls;
    }
  }

  class RetryResponseWriter {
    var body: Bytes
    var statusCode: Status
    var wroteHeader: bool

    constructor ()
      ensures View() == EMPTY
    {
      body, statusCode, wroteHeader := [], 200, false;
    }

    function View(): Buffer
      reads this
    {
      Buffer(wroteHeader, statusCode, body)
    }

    method WriteHeader(status: Status)
      modifies this
      ensures View() == Hold(old(View()), Call.WriteHeader(status))
    {
      if wroteHeader {
        return;
      }
      statusCode := status;
      wroteHeader := true;
    }

    method Write(bytes: Bytes)
      modifies this
      ensures View() == Hold(old(View()), Call.Write(bytes))
    {
      wroteHeader := true;
      body := body + bytes;
    }

    method Serve(calls: seq<Call>)
      modifies this
      ensures View() == HoldAll(old(View()), calls)
    {
      for i := 0 to |calls|
        invariant View() == HoldAll(old(View()), calls[..i])
      {
        assert calls[..i + 1][..i] == calls[..i];
        match calls[i] {
          case WriteHeader(status) => WriteHeader(status);
          case Write(bytes) => Write(bytes);
        }
      }
      assert calls[..|calls|] == calls;
    }

    method FlushTo(w: ClientWriter)
      modifies w
      ensures w.sent == Flush(View(), old(w.sent))
    {
      w.WriteHeader(statusCode);
      w.Write(body);
    }
  }
}
