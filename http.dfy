/**
 * The part of Go's `net/http` the API handlers touch: the request fields
 * they read, and a response writer that, like Go's, fixes the status line
 * and the header at the first WriteHeader or Write.
 */
module Http {

  /**
   * A piece of a response body. The JSON encoding itself is not modelled:
   * a JSON piece names the value that `json.Marshal` encodes.
   */
  datatype Chunk =
    | Text(text: string)
    | RepoJson(id: string, name: string, gitURL: string)
    | HookJson(url: string)

  /**
   * A request body as `json.Decoder.Decode` sees it when decoding into a
   * struct of string fields: an error, or the string members of an object.
   */
  datatype JsonBody = Malformed(error: string) | Object(fields: map<string, string>)

  /** A struct field the body does not set keeps Go's zero value "". */
  function Field(fields: map<string, string>, key: string): (v: string)
    ensures key in fields ==> v == fields[key]
    ensures key !in fields ==> v == ""
  {
    if key in fields then fields[key] else ""
  }

  /** The request: method (`verb`), URL path, Host, the Authorization header ("" when absent) and the body. */
  datatype Request = Request(verb: string, path: string, host: string, authorization: string, body: JsonBody)

  /** The status Go sends when a handler returns without writing anything. */
  const ImplicitStatus := 200

  class ResponseWriter {
    /** The header map a handler edits with `w.Header().Set`, keys in canonical form. */
    var header: map<string, string>
    /** The status sent so far; 0 while nothing has been sent. */
    var status: nat
    /** The header as it was when the status line went out. */
    var sentHeader: map<string, string>
    var body: seq<Chunk>

    constructor()
      ensures header == map[] && status == 0 && sentHeader == map[] && body == []
    {
      header := map[];
      status := 0;
      sentHeader := map[];
      body := [];
    }

    predicate Unsent()
      reads this
    {
      status == 0 && body == []
    }

    /** `w.Header().Set(key, value)`. */
    method SetHeader(key: string, value: string)
      modifies this`header
      ensures header == old(header)[key := value]
    {
      header := header[key := value];
    }

    /** `w.Header().Del(key)`. */
    method DelHeader(key: string)
      modifies this`header
      ensures header == old(header) - {key}
    {
      header := header - {key};
    }

    /** `w.WriteHeader(code)`: the first call sends the status and the header; later calls are ignored. */
    method WriteHeader(code: nat)
      requires 100 <= code <= 999
      modifies this`status, this`sentHeader
      ensures old(status) == 0 ==> status == code && sentHeader == header
      ensures old(status) != 0 ==> status == old(status) && sentHeader == old(sentHeader)
    {
      if status == 0 {
        status := code;
        sentHeader := header;
      }
    }

    /** `w.Write(chunk)`: sends status 200 and the header first when nothing was sent yet. */
    method Write(chunk: Chunk)
      modifies this`status, this`sentHeader, this`body
      ensures old(status) == 0 ==> status == ImplicitStatus && sentHeader == header
      ensures old(status) != 0 ==> status == old(status) && sentHeader == old(sentHeader)
      ensures body == old(body) + [chunk]
    {
      if status == 0 {
        status := ImplicitStatus;
        sentHeader := header;
      }
      body := body + [chunk];
    }
  }

  /** The header `http.Error` leaves before it sends the status. */
  function ErrorHeader(header: map<string, string>): (h: map<string, string>)
    ensures "Content-Length" !in h
    ensures "Content-Type" in h && h["Content-Type"] == "text/plain; charset=utf-8"
    ensures "X-Content-Type-Options" in h && h["X-Content-Type-Options"] == "nosniff"
    ensures forall k :: k in header && k != "Content-Length" && k != "Content-Type" && k != "X-Content-Type-Options"
                        ==> k in h && h[k] == header[k]
  {
    (header - {"Content-Length"})["Content-Type" := "text/plain; charset=utf-8"]["X-Content-Type-Options" := "nosniff"]
  }

  /** `http.Error(w, message, code)`: a plain-text error reply of one line. */
  method Error(w: ResponseWriter, message: string, code: nat)
    requires 100 <= code <= 999
    modifies w
    ensures w.header == ErrorHeader(old(w.header))
    ensures old(w.status) == 0 ==> w.status == code && w.sentHeader == w.header
    ensures old(w.status) != 0 ==> w.status == old(w.status) && w.sentHeader == old(w.sentHeader)
    ensures w.body == old(w.body) + [Text(message + "\n")]
  {
    w.DelHeader("Content-Length");
    w.SetHeader("Content-Type", "text/plain; charset=utf-8");
    w.SetHeader("X-Content-Type-Options", "nosniff");
    w.WriteHeader(code);
    w.Write(Text(message + "\n"));
  }

}
