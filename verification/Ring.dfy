/**
 The consistent-hash ring (apps/pkg/GrowRPC/xclient/consistent_hash.go).

 The meaning of a ring is the map from its points to their owners. The sorted slice of points
 exists to find a point by binary search.
 */
module Ring {

  /** A hash of labels and keys, about which nothing is known. */
  type Hash = string -> nat

  type Owners = map<nat, string>

  function Digit(d: nat): char
    requires d < 10
  {
    "0123456789"[d]
  }

  /** strconv.Itoa on natural numbers. */
  function Itoa(n: nat): string {
    if n < 10 then [Digit(n)] else Itoa(n / 10) + [Digit(n % 10)]
  }

  /** The point of the i-th virtual node of a server. */
  function Point(hash: Hash, i: nat, name: string): nat { hash(Itoa(i) + name) }

  predicate HasPoint(hash: Hash, replicas: int, name: string, p: nat) {
    exists i :: 0 <= i < replicas && Point(hash, i, name) == p
  }

  // ----- the labels -----

  /** A numeral read from left to right, each character by its distance from '0'. */
  function ReadNumeral(s: string): int {
    if s == "" then 0 else 10 * ReadNumeral(s[..|s| - 1]) + (s[|s| - 1] as int - '0' as int)
  }

  predicate IsNumeral(s: string) {
    s != "" && forall i :: 0 <= i < |s| ==> '0' <= s[i] <= '9'
  }

  lemma DigitValue(d: nat)
    requires d < 10
    ensures '0' <= Digit(d) <= '9' && Digit(d) as int - '0' as int == d
  {
  }

  /** The label of a virtual node begins with its number in decimal, without leading zeros. */
  lemma {:induction false} ItoaIsNumeral(n: nat)
    ensures IsNumeral(Itoa(n)) && ReadNumeral(Itoa(n)) == n
    ensures |Itoa(n)| > 1 ==> Itoa(n)[0] != '0'
  {
    if n < 10 {
      DigitValue(n);
      assert Itoa(n)[..0] == "";
    } else {
      ItoaIsNumeral(n / 10);
      DigitValue(n % 10);
      assert Itoa(n)[..|Itoa(n)| - 1] == Itoa(n / 10);
      if |Itoa(n / 10)| == 1 {
        assert Itoa(n / 10)[..0] == "";
      }
    }
  }

  /** The labels of one server are pairwise distinct, so only the hash can make its points meet. */
  lemma LabelsAreDistinct(name: string, i: nat, j: nat)
    ensures Itoa(i) + name == Itoa(j) + name <==> i == j
  {
    if Itoa(i) + name == Itoa(j) + name {
      assert |Itoa(i)| == |Itoa(j)|;
      assert (Itoa(i) + name)[..|Itoa(i)|] == Itoa(i) && (Itoa(j) + name)[..|Itoa(j)|] == Itoa(j);
      ItoaIsNumeral(i);
      ItoaIsNumeral(j);
    }
  }

  // ----- what Add does -----

  /** The first `n` virtual nodes of a server, written over what was there. */
  function OwnFirst(hash: Hash, m: Owners, name: string, n: nat): Owners {
    if n == 0 then m else OwnFirst(hash, m, name, n - 1)[Point(hash, n - 1, name) := name]
  }

  function Replicas(replicas: int): nat { if replicas < 0 then 0 else replicas }

  /** The servers are added in order; the last one written to a point owns it. */
  function OwnAll(hash: Hash, replicas: int, m: Owners, names: seq<string>): Owners {
    if names == [] then m
    else OwnFirst(hash, OwnAll(hash, replicas, m, names[..|names| - 1]), names[|names| - 1], Replicas(replicas))
  }

  predicate Sorted(keys: seq<nat>) {
    forall i, j :: 0 <= i < j < |keys| ==> keys[i] <= keys[j]
  }

  function InsertSorted(x: nat, keys: seq<nat>): seq<nat> {
    if keys == [] || x <= keys[0] then [x] + keys else [keys[0]] + InsertSorted(x, keys[1..])
  }

  /** sort.Ints. */
  function SortInts(keys: seq<nat>): seq<nat> {
    if keys == [] then [] else InsertSorted(keys[0], SortInts(keys[1..]))
  }

  lemma {:induction false} InsertSortedMembers(x: nat, keys: seq<nat>)
    ensures multiset(InsertSorted(x, keys)) == multiset(keys) + multiset{x}
    ensures forall y :: y in InsertSorted(x, keys) <==> y == x || y in keys
  {
    if !(keys == [] || x <= keys[0]) {
      InsertSortedMembers(x, keys[1..]);
      assert keys == [keys[0]] + keys[1..];
    }
  }

  lemma {:induction false} InsertSortedSorts(x: nat, keys: seq<nat>)
    requires Sorted(keys)
    ensures Sorted(InsertSorted(x, keys))
  {
    if !(keys == [] || x <= keys[0]) {
      InsertSortedSorts(x, keys[1..]);
      InsertSortedMembers(x, keys[1..]);
      var tail := InsertSorted(x, keys[1..]);
      assert forall i :: 0 <= i < |tail| ==> tail[i] in tail;
    }
  }

  /** The result is a sorted permutation. */
  lemma {:induction false} SortIntsSorts(keys: seq<nat>)
    ensures Sorted(SortInts(keys))
    ensures multiset(SortInts(keys)) == multiset(keys)
  {
    if keys != [] {
      SortIntsSorts(keys[1..]);
      InsertSortedSorts(keys[0], SortInts(keys[1..]));
      InsertSortedMembers(keys[0], SortInts(keys[1..]));
      assert keys == [keys[0]] + keys[1..];
    }
  }

  // ----- what Get means -----

  /** The clockwise successor of `h`: the least point at or after it, or else the least point. */
  ghost predicate IsSuccessor(points: set<nat>, h: nat, p: nat) {
    && p in points
    && (if exists q :: q in points && q >= h
        then p >= h && forall q :: q in points && q >= h ==> p <= q
        else forall q :: q in points ==> p <= q)
  }

  /** A key with hash `h` goes to `name`; the empty name stands for the empty ring. */
  ghost predicate RoutesTo(m: Owners, h: nat, name: string) {
    if m == map[] then name == "" else exists p :: IsSuccessor(m.Keys, h, p) && m[p] == name
  }

  lemma SameElements(keys: seq<nat>, keys': seq<nat>)
    requires multiset(keys) == multiset(keys')
    ensures |keys| == |keys'| && forall k :: k in keys <==> k in keys'
  {
    assert |keys| == |multiset(keys)|;
    assert forall k :: k in keys <==> k in multiset(keys);
  }

  lemma FirstAtOrAfter(keys: seq<nat>, points: set<nat>, h: nat, idx: nat)
    requires Sorted(keys) && idx < |keys| && (forall k :: k in points ==> k in keys)
    requires forall k :: 0 <= k < idx ==> keys[k] < h
    requires keys[idx] >= h
    ensures forall q :: q in points && q >= h ==> keys[idx] <= q
  {
    forall q | q in points && q >= h
      ensures keys[idx] <= q
    {
      var k :| 0 <= k < |keys| && keys[k] == q;
    }
  }

  lemma FirstOfAll(keys: seq<nat>, points: set<nat>, h: nat)
    requires Sorted(keys) && keys != [] && (forall k :: k in points ==> k in keys)
    requires forall k :: 0 <= k < |keys| ==> keys[k] < h
    ensures forall q :: q in points ==> keys[0] <= q < h
  {
    forall q | q in points
      ensures keys[0] <= q < h
    {
      var k :| 0 <= k < |keys| && keys[k] == q;
    }
  }

  /** The position that separates smaller from other points, taken around the ring, is that of
      the successor. */
  lemma SearchFindsSuccessor(keys: seq<nat>, points: set<nat>, h: nat, idx: nat)
    requires Sorted(keys) && keys != [] && idx <= |keys|
    requires forall k :: k in keys ==> k in points
    requires forall k :: k in points ==> k in keys
    requires forall k :: 0 <= k < idx ==> keys[k] < h
    requires forall k :: idx <= k < |keys| ==> keys[k] >= h
    ensures IsSuccessor(points, h, keys[idx % |keys|])
  {
    if idx < |keys| {
      FirstAtOrAfter(keys, points, h, idx);
      assert idx % |keys| == idx && keys[idx] in points;
    } else {
      FirstOfAll(keys, points, h);
      assert idx % |keys| == 0 && keys[0] in points;
    }
  }

  // ----- the implementation -----

  class Map {
    const hash: Hash
    const replicas: int
    var keys: seq<nat>
    var hashMap: Owners

    predicate Valid()
      reads this
    {
      && Sorted(keys)
      && (forall k :: k in keys ==> k in hashMap)
      && (forall k :: k in hashMap ==> k in keys)
    }

    constructor (replicas: int, hash: Hash)
      ensures Valid() && this.replicas == replicas && this.hash == hash && keys == [] && hashMap == map[]
    {
      this.replicas := replicas;
      this.hash := hash;
      keys, hashMap := [], map[];
    }

    method Add(names: seq<string>)
      requires Valid()
      modifies this
      ensures Valid()
      ensures hashMap == OwnAll(hash, replicas, old(hashMap), names)
      ensures |keys| == |old(keys)| + |names| * Replicas(replicas)
    {
      var n := Replicas(replicas);
      for k := 0 to |names|
        invariant hashMap == OwnAll(hash, replicas, old(hashMap), names[..k])
        invariant forall p :: p in keys <==> p in hashMap
        invariant |keys| == |old(keys)| + k * n
      {
        var name := names[k];
        ghost var before := hashMap;
        for i := 0 to n
          invariant hashMap == OwnFirst(hash, before, name, i)
          invariant forall p :: p in keys <==> p in hashMap
          invariant |keys| == |old(keys)| + k * n + i
        {
          var h := Point(hash, i, name);
          keys := keys + [h];
          hashMap := hashMap[h := name];
        }
        assert names[..k + 1][..k] == names[..k];
      }
      assert names[..|names|] == names;
      SortIntsSorts(keys);
      SameElements(keys, SortInts(keys));
      keys := SortInts(keys);
    }

    /** sort.Search: the first position whose point is at or after `h`. */
    method Search(h: nat) returns (i: nat)
      requires Sorted(keys)
      ensures i <= |keys|
      ensures forall k :: 0 <= k < i ==> keys[k] < h
      ensures forall k :: i <= k < |keys| ==> keys[k] >= h
    {
      i := 0;
      var j := |keys|;
      while i < j
        invariant i <= j <= |keys|
        invariant forall k :: 0 <= k < i ==> keys[k] < h
        invariant forall k :: j <= k < |keys| ==> keys[k] >= h
      {
        var mid := (i + j) / 2;
        if !(keys[mid] >= h) {
          i := mid + 1;
        } else {
          j := mid;
        }
      }
    }

    /** The owner of the clockwise successor of the key's hash. */
    method Get(key: string) returns (name: string)
      requires Valid()
      ensures RoutesTo(hashMap, hash(key), name)
    {
      if |keys| == 0 {
        return "";
      }
      var h := hash(key);
      var idx := Search(h);
      SearchFindsSuccessor(keys, hashMap.Keys, h, idx);
      name := hashMap[keys[idx % |keys|]];
    }
  }

  // ----- what a ring owns -----

  lemma {:induction false} OwnFirstMeaning(hash: Hash, m: Owners, name: string, n: nat, p: nat)
    ensures p in OwnFirst(hash, m, name, n) <==> p in m || HasPoint(hash, n, name, p)
    ensures HasPoint(hash, n, name, p) ==> OwnFirst(hash, m, name, n)[p] == name
    ensures p in m && !HasPoint(hash, n, name, p) ==> OwnFirst(hash, m, name, n)[p] == m[p]
  {
    if n > 0 {
      OwnFirstMeaning(hash, m, name, n - 1, p);
      assert HasPoint(hash, n, name, p) <==> HasPoint(hash, n - 1, name, p) || Point(hash, n - 1, name) == p;
    }
  }

  /** A point belongs to an added server that has it, or stays with its former owner when there is none. */
  lemma {:induction false} OwnAllMeaning(hash: Hash, replicas: int, m: Owners, names: seq<string>, p: nat)
    ensures p in OwnAll(hash, replicas, m, names) <==> p in m || exists a :: a in names && HasPoint(hash, replicas, a, p)
    ensures (forall a :: a in names ==> !HasPoint(hash, replicas, a, p)) && p in m ==>
              OwnAll(hash, replicas, m, names)[p] == m[p]
    ensures (exists a :: a in names && HasPoint(hash, replicas, a, p)) ==>
              var owner := OwnAll(hash, replicas, m, names)[p];
              owner in names && HasPoint(hash, replicas, owner, p)
  {
    if names != [] {
      var n := |names| - 1;
      OwnAllMeaning(hash, replicas, m, names[..n], p);
      OwnFirstMeaning(hash, OwnAll(hash, replicas, m, names[..n]), names[n], Replicas(replicas), p);
      assert HasPoint(hash, Replicas(replicas), names[n], p) <==> HasPoint(hash, replicas, names[n], p);
      assert names == names[..n] + [names[n]];
    }
  }

  lemma SuccessorIsUnique(points: set<nat>, h: nat, p: nat, q: nat)
    requires IsSuccessor(points, h, p) && IsSuccessor(points, h, q)
    ensures p == q
  {
  }

  /** A key that is routed has one route only. */
  lemma RouteIsUnique(m: Owners, h: nat, a: string, b: string)
    requires RoutesTo(m, h, a) && RoutesTo(m, h, b)
    ensures a == b
  {
    if m != map[] {
      var p :| IsSuccessor(m.Keys, h, p) && m[p] == a;
      var q :| IsSuccessor(m.Keys, h, q) && m[q] == b;
      SuccessorIsUnique(m.Keys, h, p, q);
    }
  }

  lemma {:induction false} LeastExists(points: set<nat>) returns (p: nat)
    requires points != {}
    ensures p in points && forall q :: q in points ==> p <= q
    decreases |points|
  {
    p :| p in points;
    var others := points - {p};
    assert forall q :: q in points ==> q == p || q in others;
    if others != {} {
      var q := LeastExists(others);
      p := if q < p then q else p;
    }
  }

  lemma SuccessorExists(points: set<nat>, h: nat) returns (p: nat)
    requires points != {}
    ensures IsSuccessor(points, h, p)
  {
    var after := set q | q in points && q >= h;
    assert forall q :: q in after <==> q in points && q >= h;
    if after != {} {
      p := LeastExists(after);
    } else {
      p := LeastExists(points);
      assert !exists q :: q in points && q >= h;
    }
  }

  /** Every key has a route. */
  lemma RouteExists(m: Owners, h: nat) returns (a: string)
    ensures RoutesTo(m, h, a)
  {
    a := "";
    if m != map[] {
      var p := SuccessorExists(m.Keys, h);
      a := m[p];
    }
  }

  // ----- how routes change -----

  lemma SuccessorInSubset(small: set<nat>, large: set<nat>, h: nat, p: nat)
    requires small <= large && IsSuccessor(large, h, p) && p in small
    ensures IsSuccessor(small, h, p)
  {
  }

  /** Adding servers changes the route of a key only to an added server, whatever collides. */
  lemma AddMovesKeysOnlyToAddedServers(hash: Hash, replicas: int, m: Owners, names: seq<string>, h: nat, a: string, b: string)
    requires RoutesTo(m, h, a) && RoutesTo(OwnAll(hash, replicas, m, names), h, b)
    ensures b == a || b in names
  {
    var m' := OwnAll(hash, replicas, m, names);
    if m' == map[] {
      if m != map[] {
        var p :| p in m;
        OwnAllMeaning(hash, replicas, m, names, p);
      }
    } else {
      var p :| IsSuccessor(m'.Keys, h, p) && m'[p] == b;
      OwnAllMeaning(hash, replicas, m, names, p);
      if b !in names {
        assert p in m && m[p] == b;
        forall q | q in m
          ensures q in m'
        {
          OwnAllMeaning(hash, replicas, m, names, q);
        }
        SuccessorInSubset(m.Keys, m'.Keys, h, p);
        RouteIsUnique(m, h, a, b);
      }
    }
  }

  /** No two of the servers share a point. */
  ghost predicate NoCollisions(hash: Hash, replicas: int, names: set<string>) {
    forall a, b, p :: a in names && b in names && HasPoint(hash, replicas, a, p) && HasPoint(hash, replicas, b, p) ==> a == b
  }

  function SetOf(names: seq<string>): set<string> { set a | a in names }

  /** A ring built from nothing. */
  function Fresh(hash: Hash, replicas: int, names: seq<string>): Owners {
    OwnAll(hash, replicas, map[], names)
  }

  /** Without collisions the ring depends on the set of servers only, not on their order. */
  lemma OrderDoesNotMatter(hash: Hash, replicas: int, names: seq<string>, names': seq<string>)
    requires SetOf(names) == SetOf(names')
    requires NoCollisions(hash, replicas, SetOf(names))
    ensures Fresh(hash, replicas, names) == Fresh(hash, replicas, names')
  {
    assert forall a :: a in names <==> a in SetOf(names);
    assert forall a :: a in names' <==> a in SetOf(names');
    forall p: nat
      ensures p in Fresh(hash, replicas, names) <==> p in Fresh(hash, replicas, names')
      ensures p in Fresh(hash, replicas, names) ==> Fresh(hash, replicas, names)[p] == Fresh(hash, replicas, names')[p]
    {
      OwnAllMeaning(hash, replicas, map[], names, p);
      OwnAllMeaning(hash, replicas, map[], names', p);
    }
  }

  lemma LastAddedOwns(hash: Hash, replicas: int, names: seq<string>, last: string, p: nat)
    requires HasPoint(hash, replicas, last, p)
    ensures RoutesTo(Fresh(hash, replicas, names + [last]), p, last)
  {
    var m := Fresh(hash, replicas, names);
    assert (names + [last])[..|names|] == names;
    OwnFirstMeaning(hash, m, last, Replicas(replicas), p);
    assert HasPoint(hash, Replicas(replicas), last, p);
    assert IsSuccessor(Fresh(hash, replicas, names + [last]).Keys, p, p);
  }

  lemma {:induction false} ListingExists(names: set<string>) returns (l: seq<string>)
    ensures SetOf(l) == names
    decreases |names|
  {
    l := [];
    if names != {} {
      var a :| a in names;
      var rest := ListingExists(names - {a});
      l := rest + [a];
      assert forall x :: x in l <==> x in SetOf(rest) || x == a;
    }
  }

  lemma ListingEndingWith(names: set<string>, x: string) returns (l: seq<string>)
    requires x in names
    ensures SetOf(l + [x]) == names
  {
    l := ListingExists(names);
    assert forall z :: z in l + [x] <==> z in SetOf(l);
  }

  /** Every listing of the servers gives the same ring. */
  ghost predicate SameRing(hash: Hash, replicas: int, names: set<string>) {
    forall a, b :: SetOf(a) == names && SetOf(b) == names ==> Fresh(hash, replicas, a) == Fresh(hash, replicas, b)
  }

  /** Every listing of the servers routes every key alike. */
  ghost predicate SameRoutes(hash: Hash, replicas: int, names: set<string>) {
    forall a, b, key, x, y ::
      (&& SetOf(a) == names && SetOf(b) == names
       && RoutesTo(Fresh(hash, replicas, a), hash(key), x) && RoutesTo(Fresh(hash, replicas, b), hash(key), y))
      ==> x == y
  }

  /** Two servers that share a point: the later one of a listing gets the keys of that point. */
  lemma CollisionDependsOnOrder(hash: Hash, replicas: int, names: set<string>, x: string, y: string, p: nat)
    returns (a: seq<string>, b: seq<string>, key: string)
    requires x in names && y in names && HasPoint(hash, replicas, x, p) && HasPoint(hash, replicas, y, p)
    ensures SetOf(a) == names && SetOf(b) == names
    ensures RoutesTo(Fresh(hash, replicas, a), hash(key), x) && RoutesTo(Fresh(hash, replicas, b), hash(key), y)
  {
    var l := ListingEndingWith(names, x);
    var l' := ListingEndingWith(names, y);
    a, b := l + [x], l' + [y];
    var i :| 0 <= i < replicas && Point(hash, i, x) == p;
    key := Itoa(i) + x;
    LastAddedOwns(hash, replicas, l, x, p);
    LastAddedOwns(hash, replicas, l', y, p);
  }

  /** The order of the servers has no influence, on the ring or on any route, if and only if no
      two of them share a point. */
  lemma OrderIsIrrelevantExactlyWhen(hash: Hash, replicas: int, names: set<string>)
    ensures NoCollisions(hash, replicas, names) <==> SameRing(hash, replicas, names)
    ensures NoCollisions(hash, replicas, names) <==> SameRoutes(hash, replicas, names)
  {
    if NoCollisions(hash, replicas, names) {
      forall a, b | SetOf(a) == names && SetOf(b) == names
        ensures Fresh(hash, replicas, a) == Fresh(hash, replicas, b)
      {
        OrderDoesNotMatter(hash, replicas, a, b);
      }
      forall a, b, key, x, y | SetOf(a) == names && SetOf(b) == names
        && RoutesTo(Fresh(hash, replicas, a), hash(key), x) && RoutesTo(Fresh(hash, replicas, b), hash(key), y)
        ensures x == y
      {
        RouteIsUnique(Fresh(hash, replicas, a), hash(key), x, y);
      }
    } else {
      var x, y, p :| x in names && y in names && HasPoint(hash, replicas, x, p) && HasPoint(hash, replicas, y, p) && x != y;
      var a, b, key := CollisionDependsOnOrder(hash, replicas, names, x, y, p);
      if Fresh(hash, replicas, a) == Fresh(hash, replicas, b) {
        RouteIsUnique(Fresh(hash, replicas, a), hash(key), x, y);
      }
    }
  }

  /** Rebuilding the ring without a server moves only the keys that it owned, when no two of the
      remaining servers share a point. Points shared with the server that goes do no harm. */
  lemma RemovalMovesOnlyItsKeys(hash: Hash, replicas: int, names: seq<string>, rest: seq<string>, gone: string,
                                h: nat, a: string, b: string)
    requires SetOf(rest) == SetOf(names) - {gone}
    requires NoCollisions(hash, replicas, SetOf(rest))
    requires RoutesTo(Fresh(hash, replicas, names), h, a) && RoutesTo(Fresh(hash, replicas, rest), h, b)
    requires a != gone
    ensures a == b
  {
    var m, m' := Fresh(hash, replicas, names), Fresh(hash, replicas, rest);
    forall q: nat
      ensures q in m' ==> q in m
      ensures q in m && m[q] != gone ==> q in m' && m'[q] == m[q]
    {
      PointAfterRemoval(hash, replicas, names, rest, gone, q);
    }
    if m == map[] {
      assert m' == map[];
    } else {
      var p :| IsSuccessor(m.Keys, h, p) && m[p] == a;
      assert p in m';
      SuccessorInSubset(m'.Keys, m.Keys, h, p);
      RouteIsUnique(m', h, a, b);
    }
  }

  lemma PointAfterRemoval(hash: Hash, replicas: int, names: seq<string>, rest: seq<string>, gone: string, q: nat)
    requires SetOf(rest) == SetOf(names) - {gone}
    requires NoCollisions(hash, replicas, SetOf(rest))
    ensures var m, m' := Fresh(hash, replicas, names), Fresh(hash, replicas, rest);
            && (q in m' ==> q in m)
            && (q in m && m[q] != gone ==> q in m' && m'[q] == m[q])
  {
    assert forall x :: x in rest <==> x in SetOf(rest);
    assert forall x :: x in names <==> x in SetOf(names);
    OwnAllMeaning(hash, replicas, map[], names, q);
    OwnAllMeaning(hash, replicas, map[], rest, q);
  }

  /** In whatever order the servers are listed before and after, the removal moves only the keys of
      the server that goes. */
  ghost predicate RemovalIsLocal(hash: Hash, replicas: int, names: set<string>, gone: string) {
    forall l, rest, key, a, b ::
      (&& SetOf(l) == names && SetOf(rest) == names - {gone} && a != gone
       && RoutesTo(Fresh(hash, replicas, l), hash(key), a) && RoutesTo(Fresh(hash, replicas, rest), hash(key), b))
      ==> a == b
  }

  /** That is so if and only if no two of the remaining servers share a point. */
  lemma RemovalIsLocalExactlyWhen(hash: Hash, replicas: int, names: set<string>, gone: string)
    ensures RemovalIsLocal(hash, replicas, names, gone) <==> NoCollisions(hash, replicas, names - {gone})
  {
    if NoCollisions(hash, replicas, names - {gone}) {
      forall l, rest, key, a, b | SetOf(l) == names && SetOf(rest) == names - {gone} && a != gone
        && RoutesTo(Fresh(hash, replicas, l), hash(key), a) && RoutesTo(Fresh(hash, replicas, rest), hash(key), b)
        ensures a == b
      {
        RemovalMovesOnlyItsKeys(hash, replicas, l, rest, gone, hash(key), a, b);
      }
    } else {
      var x, y, p :| x in names - {gone} && y in names - {gone}
        && HasPoint(hash, replicas, x, p) && HasPoint(hash, replicas, y, p) && x != y;
      var l := ListingEndingWith(names, x);
      var rest := ListingEndingWith(names - {gone}, y);
      var i :| 0 <= i < replicas && Point(hash, i, x) == p;
      LastAddedOwns(hash, replicas, l, x, p);
      LastAddedOwns(hash, replicas, rest, y, p);
      assert hash(Itoa(i) + x) == p;
      assert SetOf(l + [x]) == names && SetOf(rest + [y]) == names - {gone};
    }
  }

  // ----- when labels collide whatever the hash -----

  /** An address and the same address with a 1 in front share virtual labels, for every hash: with
      12 replicas or more the two orders of adding them give rings that route a key differently. */
  lemma PrefixedAddressesCollide(hash: Hash, replicas: int, x: string)
    requires replicas >= 12
    ensures !NoCollisions(hash, replicas, {x, "1" + x})
    ensures var h := hash("11" + x);
            && RoutesTo(Fresh(hash, replicas, [x, "1" + x]), h, "1" + x)
            && RoutesTo(Fresh(hash, replicas, ["1" + x, x]), h, x)
  {
    var y := "1" + x;
    var p := hash("11" + x);
    assert Itoa(1) + y == "11" + x;
    assert Itoa(11) == "11" by {
      assert Itoa(11) == Itoa(1) + [Digit(1)];
    }
    assert Point(hash, 1, y) == p && Point(hash, 11, x) == p;
    assert HasPoint(hash, replicas, x, p) && HasPoint(hash, replicas, y, p);
    LastAddedOwns(hash, replicas, [x], y, p);
    LastAddedOwns(hash, replicas, [y], x, p);
    assert [x] + [y] == [x, y] && [y] + [x] == [y, x];
  }
}
