/**
 Service discovery over etcd (apps/pkg/GrowRPC/xclient/discovery_etcd.go): the list of servers
 follows the keys under a prefix, and the hash ring is rebuilt on every change.
 */
module Discovery {
  import opened Ring

  const REPLICAS := 50

  /** strings.TrimPrefix. */
  function ParseAddr(prefix: string, key: string): string {
    if prefix <= key then key[|prefix|..] else key
  }

  /** The address is what follows the prefix; a key without the prefix is left as it is. */
  lemma ParseAddrMeaning(prefix: string, key: string)
    ensures prefix <= key ==> prefix + ParseAddr(prefix, key) == key
    ensures !(prefix <= key) ==> ParseAddr(prefix, key) == key
  {
  }

  // ----- what the watch loop does to the list of servers -----

  datatype Event = Put(key: string) | Delete(key: string)

  function AddrsOf(prefix: string, keys: seq<string>): seq<string> {
    if keys == [] then []
    else
      var addr := ParseAddr(prefix, keys[|keys| - 1]);
      AddrsOf(prefix, keys[..|keys| - 1]) + if addr != "" then [addr] else []
  }

  /** Where the address is first found, or the length of the list. */
  function IndexOf(servers: seq<string>, addr: string): (i: nat)
    ensures i <= |servers| && (i < |servers| ==> servers[i] == addr) && addr !in servers[..i]
  {
    if servers == [] || servers[0] == addr then 0
    else
      assert servers == [servers[0]] + servers[1..];
      assert servers[..1 + IndexOf(servers[1..], addr)] == [servers[0]] + servers[1..][..IndexOf(servers[1..], addr)];
      1 + IndexOf(servers[1..], addr)
  }

  /** Removal by moving the last server into the hole. */
  function Removed(servers: seq<string>, addr: string): seq<string> {
    var i := IndexOf(servers, addr);
    if i < |servers| then servers[i := servers[|servers| - 1]][..|servers| - 1] else servers
  }

  function Handled(prefix: string, servers: seq<string>, ev: Event): seq<string> {
    var addr := ParseAddr(prefix, ev.key);
    match ev
    case Put(_) => if addr != "" && addr !in servers then servers + [addr] else servers
    case Delete(_) => Removed(servers, addr)
  }

  // ----- the implementation -----

  class EtcdDiscovery {
    const prefix: string
    const hash: Hash
    var servers: seq<string>
    var hashMap: Map

    /** The ring is a fresh ring on the present list of servers. */
    ghost predicate Valid()
      reads this, hashMap
    {
      && hashMap.Valid() && hashMap.hash == hash && hashMap.replicas == REPLICAS
      && hashMap.hashMap == Fresh(hash, REPLICAS, servers)
    }

    constructor (prefix: string, hash: Hash)
      ensures Valid() && this.prefix == prefix && this.hash == hash && servers == [] && fresh(hashMap)
    {
      this.prefix := prefix;
      this.hash := hash;
      servers := [];
      hashMap := new Map(REPLICAS, hash);
    }

    method Rebuild()
      modifies this`hashMap
      ensures Valid() && fresh(hashMap)
    {
      var m := new Map(REPLICAS, hash);
      m.Add(servers);
      hashMap := m;
    }

    method UpdateServersFromKVs(keys: seq<string>)
      requires Valid()
      modifies this
      ensures Valid() && fresh(hashMap) && servers == AddrsOf(prefix, keys)
    {
      var addrs: seq<string> := [];
      for i := 0 to |keys|
        invariant addrs == AddrsOf(prefix, keys[..i])
      {
        assert keys[..i + 1][..i] == keys[..i];
        var addr := ParseAddr(prefix, keys[i]);
        if addr != "" {
          addrs := addrs + [addr];
        }
      }
      assert keys[..|keys|] == keys;
      servers := addrs;
      Rebuild();
    }

    method Contains(addr: string) returns (found: bool)
      ensures found == (addr in servers)
    {
      for i := 0 to |servers|
        invariant addr !in servers[..i]
      {
        if servers[i] == addr {
          return true;
        }
      }
      return false;
    }

    method Remove(addr: string)
      modifies this`servers
      ensures servers == Removed(old(servers), addr)
    {
      var i := 0;
      while i < |servers|
        invariant i <= |servers| && servers == old(servers) && addr !in servers[..i]
      {
        if servers[i] == addr {
          assert IndexOf(servers, addr) == i;
          servers := servers[i := servers[|servers| - 1]];
          servers := servers[..|servers| - 1];
          return;
        }
        i := i + 1;
      }
    }

    method HandleEvent(ev: Event)
      requires Valid()
      modifies this
      ensures Valid() && fresh(hashMap) && servers == Handled(prefix, old(servers), ev)
    {
      match ev {
        case Put(key) =>
          var addr := ParseAddr(prefix, key);
          if addr != "" {
            var found := Contains(addr);
            if !found {
              servers := servers + [addr];
            }
          }
        case Delete(key) =>
          var addr := ParseAddr(prefix, key);
          Remove(addr);
      }
      Rebuild();
    }

    /** Get in the consistent-hash mode; `ok` is false where the source returns an error. */
    method GetByKey(key: string) returns (ok: bool, name: string)
      requires Valid()
      ensures ok == (servers != [] && key != "")
      ensures ok ==> RoutesTo(Fresh(hash, 50, servers), hash(key), name)
    {
      if |servers| == 0 || key == "" {
        return false, "";
      }
      ok := true;
      name := hashMap.Get(key);
    }
  }

  // ----- refinement of the key-value store -----

  predicate DistinctNames(names: seq<string>) {
    forall i, j :: 0 <= i < j < |names| ==> names[i] != names[j]
  }

  /** The non-empty addresses registered under the prefix. */
  function LiveAddrs(prefix: string, store: set<string>): set<string> {
    set key | key in store && prefix <= key && key != prefix :: key[|prefix|..]
  }

  /** The list holds every live address once, in any order. */
  ghost predicate Lists(prefix: string, servers: seq<string>, store: set<string>) {
    && DistinctNames(servers)
    && (forall a :: a in servers <==> a in LiveAddrs(prefix, store))
  }

  lemma LiveAddrsMeaning(prefix: string, store: set<string>, a: string)
    ensures a in LiveAddrs(prefix, store) <==> a != "" && prefix + a in store
  {
    if a != "" && prefix + a in store {
      assert prefix <= prefix + a && (prefix + a)[|prefix|..] == a;
    }
    if a in LiveAddrs(prefix, store) {
      var key :| key in store && prefix <= key && key != prefix && key[|prefix|..] == a;
      assert key == prefix + a;
    }
  }

  /** Registering one more key adds its address, if that is not empty. */
  lemma LiveAddrsWith(prefix: string, store: set<string>, addr: string, a: string)
    ensures a in LiveAddrs(prefix, store + {prefix + addr}) <==> a in LiveAddrs(prefix, store) || (a == addr && a != "")
  {
    LiveAddrsMeaning(prefix, store, a);
    LiveAddrsMeaning(prefix, store + {prefix + addr}, a);
    assert (prefix + a)[|prefix|..] == a && (prefix + addr)[|prefix|..] == addr;
  }

  lemma {:induction false} SnapshotLists(prefix: string, keys: seq<string>)
    requires DistinctNames(keys) && forall i :: 0 <= i < |keys| ==> prefix <= keys[i]
    ensures Lists(prefix, AddrsOf(prefix, keys), SetOf(keys))
  {
    if keys != [] {
      var n := |keys| - 1;
      SnapshotLists(prefix, keys[..n]);
      var addr := ParseAddr(prefix, keys[n]);
      assert keys[n] == prefix + addr;
      assert SetOf(keys) == SetOf(keys[..n]) + {prefix + addr};
      assert prefix + addr !in SetOf(keys[..n]);
      LiveAddrsMeaning(prefix, SetOf(keys[..n]), addr);
      forall a
        ensures a in LiveAddrs(prefix, SetOf(keys)) <==> a in LiveAddrs(prefix, SetOf(keys[..n])) || (a == addr && a != "")
      {
        LiveAddrsWith(prefix, SetOf(keys[..n]), addr, a);
      }
    }
  }

  /** Swap-removal takes the address out and keeps the others, each once. */
  lemma RemovedMeaning(servers: seq<string>, addr: string)
    requires DistinctNames(servers)
    ensures DistinctNames(Removed(servers, addr))
    ensures forall a :: a in Removed(servers, addr) <==> a in servers && a != addr
  {
    var i := IndexOf(servers, addr);
    var r := Removed(servers, addr);
    var n := |servers| - 1;
    if i < |servers| {
      forall a | a in servers && a != addr
        ensures a in r
      {
        var j :| 0 <= j < |servers| && servers[j] == a;
        assert if j == n then r[i] == a else r[j] == a;
      }
    } else {
      assert servers[..i] == servers;
    }
  }

  function StoreAfter(store: set<string>, ev: Event): set<string> {
    match ev
    case Put(key) => store + {key}
    case Delete(key) => store - {key}
  }

  lemma EventLists(prefix: string, servers: seq<string>, store: set<string>, ev: Event)
    requires Lists(prefix, servers, store) && prefix <= ev.key
    ensures Lists(prefix, Handled(prefix, servers, ev), StoreAfter(store, ev))
  {
    var addr := ParseAddr(prefix, ev.key);
    var servers' := Handled(prefix, servers, ev);
    assert ev.key == prefix + addr;
    RemovedMeaning(servers, addr);
    forall a
      ensures a in servers' <==> a in LiveAddrs(prefix, StoreAfter(store, ev))
    {
      LiveAddrsMeaning(prefix, store, a);
      LiveAddrsMeaning(prefix, StoreAfter(store, ev), a);
      assert prefix + a == ev.key <==> a == addr by {
        assert (prefix + a)[|prefix|..] == a;
      }
    }
  }

  /** What the watch loop processes: the answer to a prefix query, or an event. */
  datatype Update = Snapshot(keys: seq<string>) | Change(ev: Event)

  /** Answers list distinct keys; answers and events concern keys under the prefix. */
  predicate WellFormed(prefix: string, u: Update) {
    match u
    case Snapshot(keys) => DistinctNames(keys) && forall i :: 0 <= i < |keys| ==> prefix <= keys[i]
    case Change(ev) => prefix <= ev.key
  }

  function ServersAfter(prefix: string, us: seq<Update>): seq<string> {
    if us == [] then []
    else
      match us[|us| - 1]
      case Snapshot(keys) => AddrsOf(prefix, keys)
      case Change(ev) => Handled(prefix, ServersAfter(prefix, us[..|us| - 1]), ev)
  }

  /** The store at the revision that has been processed. */
  function ProcessedStore(us: seq<Update>): set<string> {
    if us == [] then {}
    else
      match us[|us| - 1]
      case Snapshot(keys) => SetOf(keys)
      case Change(ev) => StoreAfter(ProcessedStore(us[..|us| - 1]), ev)
  }

  /** After any updates the list holds each live address of the processed revision once. */
  lemma {:induction false} ServersFollowStore(prefix: string, us: seq<Update>)
    requires forall i :: 0 <= i < |us| ==> WellFormed(prefix, us[i])
    ensures Lists(prefix, ServersAfter(prefix, us), ProcessedStore(us))
  {
    if us != [] {
      var n := |us| - 1;
      ServersFollowStore(prefix, us[..n]);
      match us[n]
      case Snapshot(keys) => SnapshotLists(prefix, keys);
      case Change(ev) => EventLists(prefix, ServersAfter(prefix, us[..n]), ProcessedStore(us[..n]), ev);
    }
  }

  /** Keys go where every fresh ring on the live addresses sends them, in whatever order it lists
      them and in whatever order the removals left the server list. */
  ghost predicate RoutesLikeStore(hash: Hash, servers: seq<string>, live: set<string>) {
    forall names, key, a, b ::
      (&& SetOf(names) == live
       && RoutesTo(Fresh(hash, REPLICAS, servers), hash(key), a) && RoutesTo(Fresh(hash, REPLICAS, names), hash(key), b))
      ==> a == b
  }

  lemma CollisionMisroutes(hash: Hash, servers: seq<string>, live: set<string>)
    requires SetOf(servers) == live && !NoCollisions(hash, REPLICAS, live)
    ensures !RoutesLikeStore(hash, servers, live)
  {
    var x, y, p :| x in live && y in live && HasPoint(hash, REPLICAS, x, p) && HasPoint(hash, REPLICAS, y, p) && x != y;
    var a, b, key := CollisionDependsOnOrder(hash, REPLICAS, live, x, y, p);
    var c := RouteExists(Fresh(hash, REPLICAS, servers), hash(key));
    assert RoutesLikeStore(hash, servers, live) ==> c == x && c == y;
  }

  /** Routing is a function of the store, after any snapshots and events: it is that of any fresh
      ring on the live addresses if and only if no two live addresses share a virtual point. */
  lemma RoutingFollowsStoreExactlyWhen(prefix: string, hash: Hash, us: seq<Update>)
    requires forall i :: 0 <= i < |us| ==> WellFormed(prefix, us[i])
    ensures var live := LiveAddrs(prefix, ProcessedStore(us));
            RoutesLikeStore(hash, ServersAfter(prefix, us), live) <==> NoCollisions(hash, REPLICAS, live)
  {
    var live, servers := LiveAddrs(prefix, ProcessedStore(us)), ServersAfter(prefix, us);
    ServersFollowStore(prefix, us);
    assert SetOf(servers) == live;
    if NoCollisions(hash, REPLICAS, live) {
      OrderIsIrrelevantExactlyWhen(hash, REPLICAS, live);
    } else {
      CollisionMisroutes(hash, servers, live);
    }
  }
}
