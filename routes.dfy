/** What the server answers for a route that no handler matched. */
module Routes {

  import opened Options
  import opened Api

  /** The catch-all handler for a route no other handler matched. */
  function RouteNotFound(verb: string, path: string): (r: Response)
    ensures r.status == 404 && r.body.ErrorBody? && r.body.error == "Not found"
    ensures r.body.message.Some?
    ensures var m := r.body.message.value;
      && |m| == |verb| + |path| + 17
      && m[..6] == "Route " && m[|m| - 10..] == " not found"
      && m[6..6 + |verb|] == verb
      && m[7 + |verb|..7 + |verb| + |path|] == path
  {
    Response(404, ErrorBody("Not found", Some("Route " + verb + " " + path + " not found")))
  }

}
