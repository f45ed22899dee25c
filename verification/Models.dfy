/** Values that the controller, the proxies and the clients exchange and store. */
module Models {

  datatype Option<+T> = None | Some(value: T)

  /** The gRPC status codes the services answer with; Panic stands for a failed unwrap. */
  datatype Status = InvalidArgument | Unauthenticated | NotFound | Internal | Panic

  datatype Result<+T> = Ok(value: T) | Err(status: Status)

  newtype Byte = n: int | 0 <= n < 0x100
  newtype Port = n: int | 0 <= n < 0x1_0000

  type Bytes = seq<Byte>

  datatype Component = Controller | Proxy | Client

  datatype SocketAddr = SocketAddr(ip: string, port: Port)

  /** Where a component listens, and the certificate it presents there. */
  datatype ConnectionSettings =
    ConnectionSettings(ip: string, port: Port, domainName: string, certificate: Bytes)

  datatype SessionInfo = SessionInfo(
    accessKey: string,
    uid: string,
    clientIp: SocketAddr,
    component: Component,
    settings: ConnectionSettings)

  datatype Route = Route(settings: ConnectionSettings, nonce: string, endRoute: bool)

  datatype Conversation = Conversation(id: string, from: string, to: string, routingId: nat, routes: seq<Route>)

  /** A stored value with its deadline; times are integer milliseconds of a monotone clock. */
  datatype Expiring<+T> = Expiring(value: T, expiresAt: int, ttl: nat) {

    predicate IsExpired(now: int) {
      expiresAt < now
    }

    function Renew(now: int): Expiring<T> {
      this.(expiresAt := now + ttl)
    }
  }

  function Wrap<T>(value: T, ttl: nat, now: int): Expiring<T> {
    Expiring(value, now + ttl, ttl)
  }

  /** `order` lists every element of `s` exactly once: one order a hash collection may be iterated in. */
  predicate Enumerates<T(==)>(order: seq<T>, s: set<T>) {
    && (forall x :: x in order ==> x in s)
    && (forall x :: x in s ==> x in order)
    && (forall i, j :: 0 <= i < j < |order| ==> order[i] != order[j])
  }

  lemma {:induction false} EnumerationExists<T>(s: set<T>) returns (order: seq<T>)
    ensures Enumerates(order, s)
    decreases s
  {
    if s == {} {
      order := [];
    } else {
      var x :| x in s;
      var rest := EnumerationExists(s - {x});
      order := rest + [x];
    }
  }

  /** There is always one more: ids, nonces and access keys can be generated fresh. */
  lemma {:induction false} UnusedString(used: set<string>) returns (s: string)
    ensures s !in used && forall u :: u in used ==> |u| < |s|
    decreases used
  {
    if used == {} {
      s := [];
    } else {
      var u :| u in used;
      var rest := UnusedString(used - {u});
      s := if |u| < |rest| then rest else u + "x";
    }
  }
}
