/** The slice of Go's net/http the handler uses: the request it reads and the ResponseWriter it writes. */
module Http {
  import opened Wrappers

  /** Go's []byte and string are both modelled as character sequences. */
  type Bytes = string

  /** A request body: absent (nil), readable to the end, or failing while being read. */
  datatype Body = NoBody | Readable(data: Bytes) | Unreadable(error: string)

  /** `contentType` is what r.Header.Get("Content-Type") returns: the first value, or "" if there is none. */
  datatype Request = Request(contentType: string, body: Body)

  /** What the client receives: the status code, the headers the handler set, and the body. */
  datatype Reply = Reply(status: int, header: map<string, string>, body: Bytes)

  /** Statuses whose replies carry no body: 1xx, 204 No Content and 304 Not Modified. */
  predicate BodyAllowedForStatus(status: int)
  {
    !(100 <= status <= 199) && status != 204 && status != 304
  }

  /** The status Go sends when a handler writes without calling WriteHeader. */
  const ImplicitStatus := 200

  /**
   * A ResponseWriter. Headers set through Header() are sent with the status
   * line, so changes after the first WriteHeader or Write are not sent; a
   * second WriteHeader is ignored; Write commits an implicit 200 first.
   */
  class ResponseWriter {
    /** The map Header() returns. */
    var header: map<string, string>
    var wroteHeader: bool
    var status: int
    /** The headers as committed with the status line. */
    var sentHeader: map<string, string>
    var body: Bytes

    constructor ()
      ensures Unused()
    {
      header, wroteHeader, status, sentHeader, body := map[], false, 0, map[], [];
    }

    /** Nothing has been written and no header set. */
    predicate Unused()
      reads this
    {
      header == map[] && !wroteHeader && body == []
    }

    /** What the client receives once the handler returns; a handler that wrote nothing sends 200. */
    function Observed(): (reply: Reply)
      reads this
    {
      if wroteHeader then Reply(status, sentHeader, body) else Reply(ImplicitStatus, header, body)
    }

    /** w.Header().Set(key, value). */
    method SetHeader(key: string, value: string)
      modifies this
      ensures header == old(header)[key := value]
      ensures wroteHeader == old(wroteHeader) && status == old(status)
      ensures sentHeader == old(sentHeader) && body == old(body)
    {
      header := header[key := value];
    }

    /** w.WriteHeader(code); Go panics on codes outside 100..999, and codes below 200 are excluded. */
    method WriteHeader(code: int)
      requires 200 <= code <= 999
      modifies this
      ensures wroteHeader
      ensures old(wroteHeader) ==> status == old(status) && sentHeader == old(sentHeader)
      ensures !old(wroteHeader) ==> status == code && sentHeader == old(header)
      ensures header == old(header) && body == old(body)
    {
      if !wroteHeader {
        wroteHeader, status, sentHeader := true, code, header;
      }
    }

    /**
     * w.Write(data). After a committed status that forbids a body, the data is
     * refused (Go's ErrBodyNotAllowed) and `accepted` is false; empty data is
     * accepted before that check, as in Go.
     */
    method Write(data: Bytes) returns (accepted: bool)
      modifies this
      ensures wroteHeader
      ensures old(wroteHeader) ==> status == old(status) && sentHeader == old(sentHeader)
      ensures !old(wroteHeader) ==> status == ImplicitStatus && sentHeader == old(header)
      ensures accepted == (|data| == 0 || BodyAllowedForStatus(status))
      ensures header == old(header) && body == if accepted then old(body) + data else old(body)
    {
      if !wroteHeader {
        WriteHeader(ImplicitStatus);
      }
      accepted := |data| == 0 || BodyAllowedForStatus(status);
      if accepted {
        body := body + data;
      }
    }
  }
}
