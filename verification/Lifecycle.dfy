/** One request through both services: the theorems about the parts, put together. */
module Lifecycle {
  import opened Wrappers
  import opened MlClient
  import RequestIds
  import SystemStatus
  import HttpMiddleware

  /** The status payload: healthy exactly on an accepted reply, whose description it then publishes. */
  ghost predicate StatusContract(p: SystemStatus.Payload, version: string, reply: Reply, parse: string -> seq<Item>) {
    && p.service == "search-api" && p.version == version && SystemStatus.PublicContract(p.mlService)
    && (p.status == "healthy" <==> exists info :: Accepts(reply, parse, info))
    && (p.status == "healthy" <==> p.mlService.status == "ready") && (p.status != "healthy" ==> p.status == "degraded")
    && forall info :: Accepts(reply, parse, info) ==> SystemStatus.Publishes(p.mlService, info)
  }

  /**
   A request to the search API, by any method and path, under any header, randomness, clock and dependency.
   `reply` is what the dependency answers once it has been sent the identifier, and `parse` and `encode`
   are the JSON library.

   The client gets its own acceptable identifier back, or a fresh one; the ML service is using the same
   one; every route and method is answered as the public contract says, and the status payload is healthy
   exactly when the dependency's reply was acceptable. The log tells the same status the client saw.
   */
  method Serve(
    requestMethod: string, path: string, raw: string,
    random: Option<seq<int>>, now: int, count: nat, uuid: seq<int>,
    version: string, elapsed: int,
    reply: string -> Reply, chunks: seq<nat>, parse: string -> seq<Item>,
    encode: HttpMiddleware.Payload -> string)
    returns (id: string, mlServiceId: string, exchange: HttpMiddleware.Exchange)
    requires (random.Some? ==> RequestIds.RandomBytes(random.value)) && RequestIds.RandomBytes(uuid)
    requires -RequestIds.INT64_MAX - 1 <= now <= RequestIds.INT64_MAX && count < RequestIds.UINT64
    ensures RequestIds.GoUses(raw, random, now, count, id) && mlServiceId == id
    ensures exchange.records == [HttpMiddleware.Completed(id, exchange.head.status)]
    ensures exists p: SystemStatus.Payload ::
      && HttpMiddleware.RouteContract(exchange, requestMethod, path, id, version, p, encode)
      && (requestMethod == "GET" && path == "/v1/system/status" ==> StatusContract(p, version, reply(id), parse))
  {
    id := HttpMiddleware.ChooseId(raw, random, now, count);
    RequestIds.ServicesAgree(raw, random, now, count, uuid);
    mlServiceId := RequestIds.PythonRequestId(Some(id), uuid);
    var status := SystemStatus.SystemPayload(version, elapsed, SystemStatus.MlServiceStatus(None));
    if HttpMiddleware.AsksForStatus(requestMethod, path) {
      status := SystemStatus.StatusOf(version, elapsed, Some(reply(id)), chunks, parse);
    }
    var errorBody := encode(HttpMiddleware.ApiError("internal_error", "an internal error occurred", id));
    var script := HttpMiddleware.Route(requestMethod, path, id, version, status, encode);
    exchange := HttpMiddleware.HandleWithId(id, script, errorBody);
    HttpMiddleware.EveryRequestAnswered(requestMethod, path, id, version, status, encode, errorBody);
  }
}
