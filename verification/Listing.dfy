/** The list of routes a Gateway is compiled from. It goes kind by kind, which is what
    settles the order of routes that precedence does not tell apart. */
module Listing {
  import opened Sorting
  import opened GatewayModel
  import opened Attachment
  import opened Entries

  /** The routes of each kind, in whatever order the API server returns them. */
  datatype RouteLists = RouteLists(http: seq<Route>, grpc: seq<Route>, tls: seq<Route>, tcp: seq<Route>, udp: seq<Route>)

  /** Which kinds of route the cluster has. */
  datatype Features = Features(grpc: bool, tls: bool, tcp: bool, udp: bool)

  function AllRoutes(lists: RouteLists, features: Features): seq<Route> {
    lists.http + ((if features.grpc then lists.grpc else []) + ((if features.tls then lists.tls else []) +
      ((if features.tcp then lists.tcp else []) + if features.udp then lists.udp else [])))
  }

  method ListRoutes(lists: RouteLists, features: Features) returns (routes: seq<Route>)
    ensures routes == AllRoutes(lists, features)
  {
    routes := lists.http;
    if features.grpc {
      routes := routes + lists.grpc;
    }
    if features.tls {
      routes := routes + lists.tls;
    }
    if features.tcp {
      routes := routes + lists.tcp;
    }
    if features.udp {
      routes := routes + lists.udp;
    }
  }

  ghost predicate OfKind(routes: seq<Route>, kind: string) {
    forall r :: r in routes ==> r.key.kind == kind
  }

  ghost predicate ByKind(lists: RouteLists) {
    OfKind(lists.http, "HTTPRoute") && OfKind(lists.grpc, "GRPCRoute") && OfKind(lists.tls, "TLSRoute") &&
    OfKind(lists.tcp, "TCPRoute") && OfKind(lists.udp, "UDPRoute")
  }

  /** An HTTPRoute or a GRPCRoute of the Gateway, which one listener may accept both of. */
  ghost predicate Mixes(gw: Gateway, routes: seq<Route>, a: Route) {
    a in routes && RefersTo(a, gw) && a.key.kind in {"HTTPRoute", "GRPCRoute"}
  }

  /** Both lists put the Gateway's HTTPRoutes and GRPCRoutes of one namespace, name and
      creation second the same way round. */
  ghost predicate TwinsKept(gw: Gateway, routes: seq<Route>, others: seq<Route>) {
    forall a, b :: Mixes(gw, routes, a) && Mixes(gw, routes, b) && SameAge(a, b) ==>
      (Place(routes, a) <= Place(routes, b) <==> Place(others, a) <= Place(others, b))
  }

  lemma {:induction false} PlaceConcat<T>(s: seq<T>, t: seq<T>, x: T)
    ensures Place(s + t, x) == if x in s then Place(s, x) else |s| + Place(t, x)
  {
    if s == [] {
      assert s + t == t;
    } else {
      assert (s + t)[1..] == s[1..] + t && (s + t)[0] == s[0];
      PlaceConcat(s[1..], t, x);
    }
  }

  /** In every listing an HTTPRoute comes before a GRPCRoute. */
  lemma HttpFirst(lists: RouteLists, features: Features, a: Route, b: Route)
    requires ByKind(lists) && a in AllRoutes(lists, features) && b in AllRoutes(lists, features)
    requires a.key.kind == "HTTPRoute" && b.key.kind == "GRPCRoute"
    ensures Place(AllRoutes(lists, features), a) < Place(AllRoutes(lists, features), b)
  {
    var rest := AllRoutes(lists.(http := []), features);
    assert AllRoutes(lists, features) == lists.http + rest by { assert [] + rest == rest; }
    PlaceConcat(lists.http, rest, a);
    PlaceConcat(lists.http, rest, b);
    PlaceFinds(lists.http, a);
  }

  /** However the API server orders the routes of each kind, listing them keeps twins as they were. */
  lemma ListingKeepsTwins(gw: Gateway, lists: RouteLists, others: RouteLists, features: Features)
    requires ByKind(lists) && ByKind(others)
    requires forall r :: r in AllRoutes(lists, features) <==> r in AllRoutes(others, features)
    requires forall r, s :: r in AllRoutes(lists, features) && s in AllRoutes(lists, features) && r.key == s.key ==> r == s
    ensures TwinsKept(gw, AllRoutes(lists, features), AllRoutes(others, features))
  {
    forall a, b | Mixes(gw, AllRoutes(lists, features), a) && Mixes(gw, AllRoutes(lists, features), b) && SameAge(a, b)
      ensures Place(AllRoutes(lists, features), a) <= Place(AllRoutes(lists, features), b) <==>
              Place(AllRoutes(others, features), a) <= Place(AllRoutes(others, features), b)
    {
      if a.key.kind == b.key.kind {
        assert a.key == b.key;
      } else if a.key.kind == "HTTPRoute" {
        HttpFirst(lists, features, a, b);
        HttpFirst(others, features, a, b);
      } else {
        HttpFirst(lists, features, b, a);
        HttpFirst(others, features, b, a);
      }
    }
  }
}
