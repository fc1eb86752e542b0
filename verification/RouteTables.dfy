/** The two tables the client generator joins: what the router recorded and what the handlers
    described. */
module RouteTables {
  import opened Wrappers
  import Ordering
  import Splitter

  datatype Kind = Path | Query | Body | Multipart

  datatype Arg = Arg(
    name: string,
    kind: Kind,
    tsType: string,
    positions: Option<seq<string>>,
    fields: Option<seq<Splitter.Field>>)

  datatype Response = Json(tsType: string) | NoContent | Link

  datatype Handler = Handler(fqname: string, name: string, args: seq<Arg>, response: Response)

  datatype Registration = Registration(fqname: string, verb: string, path: string, pathParams: seq<string>)

  function HandlerKey(h: Handler): Ordering.Key { [h.fqname] }

  function RouteName(r: Registration): Ordering.Key { [r.fqname] }

  function RouteKey(r: Registration): Ordering.Key { [r.path, r.verb] }
}
