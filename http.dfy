/** The part of Node's `http.ServerResponse` that the middleware changes in
    place: its header table. */
module Http {

  class ServerResponse {
    var headers: map<string, string>

    constructor ()
      ensures headers == map[]
    {
      headers := map[];
    }

    /** `res.setHeader(name, value)` replaces any earlier value of `name`. */
    method SetHeader(name: string, value: string)
      modifies this
      ensures headers == old(headers)[name := value]
    {
      headers := headers[name := value];
    }
  }
}
