/** The response a client receives, and the one held back until its owner is checked. */
module HeldResponses {
  import opened Common

  type Bytes = seq<bv8>
  type Header = map<string, seq<string>>

  function Get(header: Header, key: string): string {
    if key in header && header[key] != [] then header[key][0] else ""
  }

  /** What the client has received so far; status 0 means nothing. */
  datatype Client = Client(header: Header, status: int, sentHeader: Header, body: Bytes) {
    function WithStatus(code: int): Client {
      if status != 0 then this else this.(status := code, sentHeader := header)
    }

    function WithBytes(p: Bytes): Client {
      var sent := WithStatus(200);
      sent.(body := sent.body + p)
    }
  }

  class ResponseWriter {
    var header: Header
    var status: int
    var sentHeader: Header
    var body: Bytes

    constructor ()
      ensures View() == Client(map[], 0, map[], [])
    {
      header, status, sentHeader, body := map[], 0, map[], [];
    }

    function View(): Client
      reads this
    {
      Client(header, status, sentHeader, body)
    }

    method SetHeader(key: string, values: seq<string>)
      modifies this
      ensures View() == old(View()).(header := old(header)[key := values])
    {
      header := header[key := values];
    }

    method WriteHeader(code: int)
      modifies this
      ensures View() == old(View()).WithStatus(code)
    {
      if status == 0 {
        status, sentHeader := code, header;
      }
    }

    method Write(p: Bytes)
      modifies this
      ensures View() == old(View()).WithBytes(p)
    {
      if status == 0 {
        WriteHeader(200);
      }
      body := body + p;
    }
  }

  /** The value of a held response together with the client behind it. */
  datatype Held = Held(limit: int, streamOnOverflow: bool, header: Header, status: int, body: Bytes, overflow: bool,
                       streaming: bool, client: Client)
  {
    function StatusCode(): int { if status == 0 then 200 else status }

    /** Headers copied, status sent, held bytes sent. */
    function Sent(): Client {
      client.(header := client.header + header).WithStatus(StatusCode())
    }

    function Streamed(): Held {
      var sent := Sent();
      this.(streaming := true, client := if body == [] then sent else sent.WithBytes(body), body := [])
    }

    function AfterWriteHeader(code: int): Held {
      if status != 0 then this
      else
        var h := this.(status := code);
        if 200 <= code <= 299 then h else h.Streamed()
    }

    function AfterWrite(p: Bytes): Held {
      var h := if status == 0 then AfterWriteHeader(200) else this;
      if h.streaming then h.(client := h.client.WithBytes(p))
      else if h.overflow then h
      else if |h.body| + |p| > h.limit then
        var over := h.(overflow := true);
        if h.streamOnOverflow then
          var streamed := over.Streamed();
          streamed.(client := streamed.client.WithBytes(p))
        else over.(body := [])
      else h.(body := h.body + p)
    }

    function Released(): Held {
      if streaming then this else this.(client := Sent().WithBytes(body))
    }
  }

  class HeldResponse {
    const dst: ResponseWriter
    const streamOnOverflow: bool
    const limit: int
    var header: Header
    var status: int
    var body: Bytes
    var overflow: bool
    var streaming: bool

    constructor (dst: ResponseWriter, limit: int, streamOnOverflow: bool)
      ensures this.dst == dst && View() == Held(limit, streamOnOverflow, map[], 0, [], false, false, dst.View())
    {
      this.dst, this.limit, this.streamOnOverflow := dst, limit, streamOnOverflow;
      header, status, body, overflow, streaming := map[], 0, [], false, false;
    }

    function View(): Held
      reads this, dst
    {
      Held(limit, streamOnOverflow, header, status, body, overflow, streaming, dst.View())
    }

    method StatusCode() returns (code: int)
      ensures code == View().StatusCode()
    {
      code := if status == 0 then 200 else status;
    }

    method CopyHeaderTo(w: ResponseWriter)
      modifies w
      ensures w.View() == old(w.View()).(header := old(w.header) + header)
    {
      w.header := w.header + header;
    }

    method SetHeader(key: string, values: seq<string>)
      modifies this
      ensures View() == old(View()).(header := old(header)[key := values])
    {
      header := header[key := values];
    }

    method WriteHeader(code: int)
      modifies this, dst
      ensures View() == old(View()).AfterWriteHeader(code)
    {
      if status != 0 {
        return;
      }
      status := code;
      if code < 200 || code > 299 {
        StartStreaming();
      }
    }

    method Write(p: Bytes)
      modifies this, dst
      ensures View() == old(View()).AfterWrite(p)
    {
      if status == 0 {
        WriteHeader(200);
      }
      if streaming {
        dst.Write(p);
        return;
      }
      if overflow {
        return;
      }
      if |body| + |p| > limit {
        overflow := true;
        if streamOnOverflow {
          StartStreaming();
          dst.Write(p);
          return;
        }
        body := [];
        return;
      }
      body := body + p;
    }

    method StartStreaming()
      modifies this, dst
      ensures View() == old(View()).Streamed()
    {
      streaming := true;
      CopyHeaderTo(dst);
      var code := StatusCode();
      dst.WriteHeader(code);
      if |body| > 0 {
        dst.Write(body);
        body := [];
      }
    }

    /** Sends what was held: its headers, its status and its body. */
    method Release()
      modifies dst
      ensures View() == old(View()).Released()
    {
      if streaming {
        return;
      }
      CopyHeaderTo(dst);
      var code := StatusCode();
      dst.WriteHeader(code);
      dst.Write(body);
    }
  }

  // ---------------------------------------------------------------- what a backend can do

  datatype Call = SetHeader(key: string, values: seq<string>) | WriteHeader(code: int) | Write(p: Bytes)

  /** Status codes a server accepts. */
  predicate ValidCall(c: Call) { c.WriteHeader? ==> 100 <= c.code <= 999 }

  function After(h: Held, c: Call): Held {
    match c
    case SetHeader(key, values) => h.(header := h.header[key := values])
    case WriteHeader(code) => h.AfterWriteHeader(code)
    case Write(p) => h.AfterWrite(p)
  }

  function AfterAll(h: Held, calls: seq<Call>): Held {
    if calls == [] then h else After(AfterAll(h, calls[..|calls| - 1]), calls[|calls| - 1])
  }

  /** The backend's handler, making its calls one after the other. */
  method Serve(held: HeldResponse, calls: seq<Call>)
    modifies held, held.dst
    ensures held.View() == AfterAll(old(held.View()), calls)
  {
    for i := 0 to |calls|
      invariant held.View() == AfterAll(old(held.View()), calls[..i])
    {
      assert calls[..i + 1][..i] == calls[..i];
      match calls[i]
      case SetHeader(key, values) => held.SetHeader(key, values);
      case WriteHeader(code) => held.WriteHeader(code);
      case Write(p) => held.Write(p);
    }
    assert calls[..|calls|] == calls;
  }

  /** The status of the first call that fixes one; 0 when there is none. */
  function FirstStatus(calls: seq<Call>): int {
    if calls == [] then 0
    else
      var before := FirstStatus(calls[..|calls| - 1]);
      if before != 0 then before
      else match calls[|calls| - 1]
        case WriteHeader(code) => code
        case Write(_) => 200
        case _ => 0
  }

  function Body(calls: seq<Call>): Bytes {
    if calls == [] then []
    else Body(calls[..|calls| - 1]) + (if calls[|calls| - 1].Write? then calls[|calls| - 1].p else [])
  }

  function HeaderAfter(calls: seq<Call>): Header {
    if calls == [] then map[]
    else
      var before := HeaderAfter(calls[..|calls| - 1]);
      match calls[|calls| - 1]
      case SetHeader(key, values) => before[key := values]
      case _ => before
  }

  /** The headers set before the status was fixed. */
  function HeaderAtStatus(calls: seq<Call>): Header {
    if calls == [] then map[]
    else
      var front := calls[..|calls| - 1];
      if FirstStatus(front) != 0 then HeaderAtStatus(front) else HeaderAfter(front)
  }

  /** The headers set before the body went over the limit. */
  function HeaderAtOverflow(calls: seq<Call>, limit: int): Header {
    if calls == [] then map[]
    else
      var front := calls[..|calls| - 1];
      if |Body(front)| > limit then HeaderAtOverflow(front, limit) else HeaderAfter(front)
  }

  /** A client that has received nothing so far, after one complete answer. */
  function Delivered(client: Client, status: int, header: Header, body: Bytes): Client {
    var merged := client.header + header;
    Client(merged, status, merged, body)
  }

  function Fresh(limit: int, streamOnOverflow: bool, client: Client): Held {
    Held(limit, streamOnOverflow, map[], 0, [], false, false, client)
  }

  ghost predicate Success(status: int) { status == 0 || 200 <= status <= 299 }

  /** While unverifiable answers are refused, a successful answer is only collected: nothing reaches the client, and
      what is held depends on the whole body, not on how it was split into writes. */
  lemma {:induction false} HeldBack(limit: int, client: Client, calls: seq<Call>)
    requires limit >= 0 && (forall i :: 0 <= i < |calls| ==> ValidCall(calls[i])) && Success(FirstStatus(calls))
    ensures var body := Body(calls);
            AfterAll(Fresh(limit, false, client), calls) ==
            Held(limit, false, HeaderAfter(calls), FirstStatus(calls), if |body| > limit then [] else body,
                 |body| > limit, false, client)
  {
    if calls != [] {
      HeldBack(limit, client, calls[..|calls| - 1]);
    }
  }

  /** An answer that is not a success carries nobody's object: it is passed on as it comes, with the headers set before
      its status. */
  lemma {:induction false} ErrorsStream(limit: int, streamOnOverflow: bool, client: Client, calls: seq<Call>)
    requires limit >= 0 && client.status == 0 && client.body == []
    requires (forall i :: 0 <= i < |calls| ==> ValidCall(calls[i])) && !Success(FirstStatus(calls))
    ensures var h := AfterAll(Fresh(limit, streamOnOverflow, client), calls);
            && h.streaming && !h.overflow && h.status == FirstStatus(calls)
            && h.client == Delivered(client, FirstStatus(calls), HeaderAtStatus(calls), Body(calls))
  {
    var front := calls[..|calls| - 1];
    assert Body(calls) == Body(front) || calls[|calls| - 1].Write?;
    if FirstStatus(front) != 0 {
      ErrorsStream(limit, streamOnOverflow, client, front);
    } else {
      NothingYet(limit, streamOnOverflow, client, front);
    }
  }

  lemma {:induction false} NothingYet(limit: int, streamOnOverflow: bool, client: Client, calls: seq<Call>)
    requires (forall i :: 0 <= i < |calls| ==> ValidCall(calls[i])) && FirstStatus(calls) == 0
    ensures AfterAll(Fresh(limit, streamOnOverflow, client), calls) ==
            Held(limit, streamOnOverflow, HeaderAfter(calls), 0, [], false, false, client)
    ensures Body(calls) == []
  {
    if calls != [] {
      NothingYet(limit, streamOnOverflow, client, calls[..|calls| - 1]);
    }
  }

  /** Where unverifiable answers are let through, an answer over the limit is streamed whole, with the headers set until
      then. */
  lemma {:induction false} OverflowStreams(limit: int, client: Client, calls: seq<Call>)
    requires limit >= 0 && client.status == 0 && client.body == []
    requires (forall i :: 0 <= i < |calls| ==> ValidCall(calls[i])) && Success(FirstStatus(calls))
    ensures var h, body := AfterAll(Fresh(limit, true, client), calls), Body(calls);
            h.status == FirstStatus(calls) &&
            if |body| > limit
            then h.streaming && h.overflow && h.body == [] && h.status != 0
                 && h.client == Delivered(client, h.status, HeaderAtOverflow(calls, limit), body)
            else h == Held(limit, true, HeaderAfter(calls), FirstStatus(calls), body, false, false, client)
  {
    if calls != [] {
      var front := calls[..|calls| - 1];
      OverflowStreams(limit, client, front);
      assert Body(calls) == Body(front) || calls[|calls| - 1].Write?;
      var h := AfterAll(Fresh(limit, true, client), front);
      if calls[|calls| - 1].Write? && !h.streaming {
        var p := calls[|calls| - 1].p;
        assert Body(calls) == h.body + p;
        assert client.body + h.body + p == h.body + p && client.body + p == p;
        if h.body == [] {
          assert h.body + p == p;
        }
      }
    }
  }
}
