/** The client's end of a response: what http.ResponseWriter sends of it. */
module Clients {
  import opened Basics
  import opened Headers

  /** Whether a final status line is among the lines; a 1xx line is not final. */
  predicate Final(lines: seq<int>) {
    lines != [] && lines[|lines| - 1] >= 200
  }

  /** Every status line and every body byte sent, and the fields the final line went out with. */
  class Client {
    const header: HttpHeader
    var lines: seq<int>
    var body: Bytes
    var sent: Header

    constructor (header: HttpHeader)
      ensures lines == [] && body == [] && this.header == header
    {
      this.header := header;
      lines, body, sent := [], [], [];
    }

    method WriteHeader(status: int)
      modifies this
      ensures lines == old(lines) + [status] && body == old(body)
      ensures sent == if status >= 200 then header.fields else old(sent)
    {
      lines := lines + [status];
      if status >= 200 {
        sent := header.fields;
      }
    }

    /** A write without a final status line sends one for 200 first, as net/http does. */
    method Write(b: Bytes)
      modifies this
      ensures lines == if Final(old(lines)) then old(lines) else old(lines) + [200]
      ensures sent == if Final(old(lines)) then old(sent) else header.fields
      ensures body == old(body) + b
    {
      if !Final(lines) {
        WriteHeader(200);
      }
      body := body + b;
    }
  }
}
