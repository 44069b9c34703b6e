/** The routing-table entries that route resolution fills in. */
module Routing {

  /** Where a route sends its traffic: address, port and the name of the container behind them. */
  datatype Upstream = Upstream(ip: string, port: string, container: string)

  /** One routing-table entry: the host key it is published under and its upstream. */
  datatype Route = Route(host: string, upstream: Upstream)

  /** The `Routes` table; how a route is entered is up to `Routes.Add`, a parameter here. */
  type Routes = map<string, Route>
}
