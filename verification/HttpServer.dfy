/** The little of `net/http` the middleware relies on: when a response head is sent, and with which headers. */
module HttpServer {
  import opened Wrappers

  type Header = map<string, string>

  /** A status line and the headers frozen with it. */
  datatype Head = Head(status: int, header: Header)

  /** A response in progress: the live header map, the interim statuses, the head once sent, and the body. */
  datatype Wire = Wire(header: Header, interim: seq<int>, head: Option<Head>, body: string)

  /** `WriteHeader` panics on any other code. */
  predicate ValidCode(code: int) { 100 <= code <= 999 }

  /** Informational codes are sent at once and leave the response open. */
  predicate InterimCode(code: int) { 100 <= code <= 199 && code != 101 }

  predicate FinalCode(code: int) { ValidCode(code) && !InterimCode(code) }

  predicate BodyAllowed(code: int) { !(100 <= code <= 199) && code != 204 && code != 304 }

  predicate Refused(w: Wire, code: int) { w.head.None? && !ValidCode(code) }

  /** The effect of `WriteHeader`: the first final code wins, later calls are ignored. */
  function AfterWriteHeader(w: Wire, code: int): Wire {
    if w.head.Some? || !ValidCode(code) then w
    else if InterimCode(code) then w.(interim := w.interim + [code])
    else w.(head := Some(Head(code, w.header)))
  }

  /** The effect of `Write`: an open response is first committed with status 200. */
  function AfterWrite(w: Wire, data: string): Wire {
    var v := AfterWriteHeader(w, 200);
    if BodyAllowed(v.head.value.status) then v.(body := v.body + data) else v
  }

  class ResponseWriter {
    var header: Header
    var interim: seq<int>
    var head: Option<Head>
    var body: string

    function View(): Wire
      reads this
    {
      Wire(header, interim, head, body)
    }

    constructor ()
      ensures View() == Wire(map[], [], None, "")
    {
      header, interim, head, body := map[], [], None, "";
    }

    method SetHeader(name: string, value: string)
      modifies this
      ensures View() == old(View()).(header := old(header)[name := value])
    {
      header := header[name := value];
    }

    method DelHeader(name: string)
      modifies this
      ensures View() == old(View()).(header := old(header) - {name})
    {
      header := header - {name};
    }

    method WriteHeader(code: int) returns (panicked: bool)
      modifies this
      ensures View() == AfterWriteHeader(old(View()), code)
      ensures panicked == Refused(old(View()), code)
    {
      if head.Some? {
        return false;
      }
      if !ValidCode(code) {
        return true;
      }
      if InterimCode(code) {
        interim := interim + [code];
      } else {
        head := Some(Head(code, header));
      }
      return false;
    }

    method Write(data: string)
      modifies this
      ensures View() == AfterWrite(old(View()), data)
    {
      if head.None? {
        var panicked := WriteHeader(200);
      }
      if BodyAllowed(head.value.status) {
        body := body + data;
      }
    }

    /** The server's last step once the outermost handler has returned. */
    method Finish()
      modifies this
      ensures View() == AfterWriteHeader(old(View()), 200)
    {
      var panicked := WriteHeader(200);
    }
  }
}
