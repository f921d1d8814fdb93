/** Finding a metric in a Langfuse trace: fixed paths first, then a pre-order walk of the whole JSON tree. */
module TraceSearch {
  import opened Prelude

  /** A dictionary keeps its keys and values in insertion order, in step with each other. */
  datatype Json =
    | Null
    | Bool(b: bool)
    | Int(n: int)
    | Float(r: real)
    | Str(s: string)
    | Arr(items: seq<Json>)
    | Obj(keys: seq<string>, values: seq<Json>)

  /** `isinstance(value, (int, float))`: in Python a boolean is an int. */
  predicate Numeric(j: Json) {
    j.Bool? || j.Int? || j.Float?
  }

  function EntryCount(j: Json): nat
    requires j.Obj?
  {
    if |j.keys| < |j.values| then |j.keys| else |j.values|
  }

  // ---------------------------------------------------------------- paths

  function IndexOf(keys: seq<string>, key: string): Option<nat> {
    if keys == [] then None
    else if keys[|keys| - 1] == key then Some(|keys| - 1)
    else IndexOf(keys[..|keys| - 1], key)
  }

  lemma {:induction false} IndexOfFinds(keys: seq<string>, key: string)
    ensures IndexOf(keys, key).None? <==> key !in keys
    ensures IndexOf(keys, key).Some? ==> IndexOf(keys, key).value < |keys| && keys[IndexOf(keys, key).value] == key
  {
    if keys != [] && keys[|keys| - 1] != key {
      IndexOfFinds(keys[..|keys| - 1], key);
      assert keys == keys[..|keys| - 1] + [keys[|keys| - 1]];
    }
  }

  /** `current[key]`, or `None` when there is no such mapping entry. */
  function Member(j: Json, key: string): Option<nat> {
    if !j.Obj? then None else IndexOf(j.keys[..EntryCount(j)], key)
  }

  function PathValue(j: Json, path: seq<string>): Option<Json> {
    if path == [] then Some(j)
    else
      IndexWithin(j, path[0]);
      var m := Member(j, path[0]);
      if m.None? then None else PathValue(j.values[m.value], path[1..])
  }

  lemma IndexWithin(j: Json, key: string)
    ensures Member(j, key).Some? ==>
              j.Obj? && Member(j, key).value < EntryCount(j) && j.keys[Member(j, key).value] == key
  {
    if j.Obj? { IndexOfFinds(j.keys[..EntryCount(j)], key); }
  }

  /** `_get_path`. */
  method GetPath(payload: Json, path: seq<string>) returns (r: Option<Json>)
    ensures r == PathValue(payload, path)
  {
    var current := payload;
    for k := 0 to |path|
      invariant PathValue(payload, path) == PathValue(current, path[k..])
    {
      IndexWithin(current, path[k]);
      var m := Member(current, path[k]);
      assert path[k..][1..] == path[k + 1..];
      if m.None? {
        return None;
      }
      current := current.values[m.value];
    }
    r := Some(current);
  }

  // ---------------------------------------------------------------- the walk

  function Children(j: Json): seq<Json> {
    match j
    case Arr(items) => items
    case Obj(_, values) => values
    case _ => []
  }

  /** `_walk_mappings`: the mappings of the tree, each before those inside it. */
  function Walk(j: Json): seq<Json> {
    match j
    case Arr(items) => WalkAll(items)
    case Obj(_, values) => [j] + WalkAll(values)
    case _ => []
  }

  function WalkAll(js: seq<Json>): seq<Json> {
    if js == [] then [] else Walk(js[0]) + WalkAll(js[1..])
  }

  /** Where a node is: the child positions on the way down from the root. */
  type Address = seq<nat>

  function At(j: Json, a: Address): Option<Json>
    decreases |a|
  {
    if a == [] then Some(j)
    else if a[0] < |Children(j)| then At(Children(j)[a[0]], a[1..])
    else None
  }

  /** Pre-order on addresses: a node comes before what is below it, and before what is to the right. */
  predicate Before(a: Address, b: Address)
    decreases |a|
  {
    b != [] && (a == [] || a[0] < b[0] || (a[0] == b[0] && Before(a[1..], b[1..])))
  }

  function Addresses(j: Json): seq<Address> {
    match j
    case Arr(items) => AddressesAll(items, 0)
    case Obj(_, values) => [[]] + AddressesAll(values, 0)
    case _ => []
  }

  /** The addresses of the mappings below the children `js`, the first of which is child number `i`. */
  function AddressesAll(js: seq<Json>, i: nat): seq<Address> {
    if js == [] then [] else Prefixed(i, Addresses(js[0])) + AddressesAll(js[1..], i + 1)
  }

  function Prefixed(i: nat, addrs: seq<Address>): seq<Address> {
    seq(|addrs|, k requires 0 <= k < |addrs| => [i] + addrs[k])
  }

  /** The walk visits the mappings at these addresses, in this order. */
  lemma {:induction false} WalkAddresses(j: Json, k: nat)
    requires k < |Addresses(j)|
    ensures |Addresses(j)| == |Walk(j)| && At(j, Addresses(j)[k]) == Some(Walk(j)[k]) && Walk(j)[k].Obj?
    decreases j, 0
  {
    WalkLength(j);
    match j {
      case Arr(items) => WalkAddressesAll(items, 0, k);
      case Obj(_, values) => if k > 0 { WalkAddressesAll(values, 0, k - 1); }
    }
  }

  lemma {:induction false} WalkLength(j: Json)
    ensures |Addresses(j)| == |Walk(j)|
    decreases j, 0
  {
    if j.Arr? || j.Obj? { WalkLengthAll(Children(j), 0); }
  }

  lemma {:induction false} WalkLengthAll(js: seq<Json>, i: nat)
    ensures |AddressesAll(js, i)| == |WalkAll(js)|
    decreases js, 1
  {
    if js != [] {
      WalkLength(js[0]);
      WalkLengthAll(js[1..], i + 1);
    }
  }

  /** The visit of number `k` among the mappings below the children `js`. */
  ghost predicate VisitBelow(js: seq<Json>, i: nat, k: nat, a: Address)
    requires k < |WalkAll(js)|
  {
    && a != [] && i <= a[0] < i + |js|
    && At(js[a[0] - i], a[1..]) == Some(WalkAll(js)[k]) && WalkAll(js)[k].Obj?
  }

  lemma {:induction false} WalkAddressesAll(js: seq<Json>, i: nat, k: nat)
    requires k < |AddressesAll(js, i)|
    ensures |AddressesAll(js, i)| == |WalkAll(js)|
    ensures VisitBelow(js, i, k, AddressesAll(js, i)[k])
    decreases js, 1
  {
    WalkLengthAll(js, i);
    WalkLength(js[0]);
    var n := |Addresses(js[0])|;
    if k < n {
      WalkAddresses(js[0], k);
      assert AddressesAll(js, i)[k][1..] == Addresses(js[0])[k];
    } else {
      WalkAddressesAll(js[1..], i + 1, k - n);
      assert AddressesAll(js, i)[k] == AddressesAll(js[1..], i + 1)[k - n];
      assert WalkAll(js)[k] == WalkAll(js[1..])[k - n];
    }
  }

  lemma PrefixedAt(i: nat, addrs: seq<Address>, rest: seq<Address>, k: nat)
    requires k < |addrs| + |rest|
    ensures (Prefixed(i, addrs) + rest)[k] == if k < |addrs| then [i] + addrs[k] else rest[k - |addrs|]
  {
  }

  /** Every mapping of the tree is visited. */
  lemma {:induction false} WalkComplete(j: Json, a: Address) returns (k: nat)
    requires At(j, a).Some? && At(j, a).value.Obj?
    ensures k < |Addresses(j)| && Addresses(j)[k] == a
    decreases j, 0
  {
    if a == [] {
      k := 0;
    } else {
      var c := WalkCompleteAll(Children(j), 0, a[0], a[1..]);
      k := if j.Obj? then c + 1 else c;
      assert [a[0]] + a[1..] == a;
    }
  }

  lemma {:induction false} WalkCompleteAll(js: seq<Json>, i: nat, c: nat, a: Address) returns (k: nat)
    requires i <= c < i + |js| && At(js[c - i], a).Some? && At(js[c - i], a).value.Obj?
    ensures k < |AddressesAll(js, i)| && AddressesAll(js, i)[k] == [c] + a
    decreases js, 1
  {
    if c == i {
      k := WalkComplete(js[0], a);
      PrefixedAt(i, Addresses(js[0]), AddressesAll(js[1..], i + 1), k);
    } else {
      assert js[1..][c - (i + 1)] == js[c - i];
      k := WalkCompleteAll(js[1..], i + 1, c, a);
      k := k + |Addresses(js[0])|;
      PrefixedAt(i, Addresses(js[0]), AddressesAll(js[1..], i + 1), k);
    }
  }

  /** The walk visits them in pre-order. */
  lemma {:induction false} WalkOrdered(j: Json, k: nat, m: nat)
    requires k < m < |Addresses(j)|
    ensures Before(Addresses(j)[k], Addresses(j)[m])
    decreases j, 0
  {
    match j {
      case Arr(items) => WalkOrderedAll(items, 0, k, m);
      case Obj(_, values) =>
        if k > 0 {
          WalkOrderedAll(values, 0, k - 1, m - 1);
        } else {
          WalkAddressesAll(values, 0, m - 1);
        }
    }
  }

  lemma {:induction false} WalkOrderedAll(js: seq<Json>, i: nat, k: nat, m: nat)
    requires k < m < |AddressesAll(js, i)|
    ensures Before(AddressesAll(js, i)[k], AddressesAll(js, i)[m])
    decreases js, 1
  {
    var n := |Addresses(js[0])|;
    var a, b := AddressesAll(js, i)[k], AddressesAll(js, i)[m];
    if m < n {
      WalkOrdered(js[0], k, m);
      assert a == [i] + Addresses(js[0])[k] && b == [i] + Addresses(js[0])[m];
      assert a[1..] == Addresses(js[0])[k] && b[1..] == Addresses(js[0])[m];
    } else if k < n {
      WalkAddressesAll(js[1..], i + 1, m - n);
      assert a[0] == i && b == AddressesAll(js[1..], i + 1)[m - n];
    } else {
      WalkOrderedAll(js[1..], i + 1, k - n, m - n);
    }
  }

  // ---------------------------------------------------------------- the search

  /** Entry `i` of the mapping at address `a` holds a number under one of the keys. */
  predicate Hit(j: Json, keys: set<string>, a: Address, i: nat) {
    && At(j, a).Some? && At(j, a).value.Obj?
    && EntryHit(At(j, a).value, keys, i)
  }

  predicate EntryHit(m: Json, keys: set<string>, i: nat)
    requires m.Obj?
  {
    i < EntryCount(m) && m.keys[i] in keys && (m.values[i].Bool? || m.values[i].Int? || m.values[i].Float?)
  }

  /** Nothing in the tree is a number under one of the keys. */
  ghost predicate NoHit(j: Json, keys: set<string>) {
    forall a: Address, i: nat :: !Hit(j, keys, a, i)
  }

  /** `v` is the value of the first hit in pre-order. */
  ghost predicate FirstHit(j: Json, keys: set<string>, a: Address, i: nat, v: Json) {
    && Hit(j, keys, a, i) && v == At(j, a).value.values[i]
    && forall b: Address, k: nat :: Hit(j, keys, b, k) ==> (a == b && i <= k) || Before(a, b)
  }

  ghost predicate SomeHit(j: Json, keys: set<string>, v: Json) {
    exists a: Address, i: nat :: Hit(j, keys, a, i) && v == At(j, a).value.values[i]
  }

  lemma {:induction false} BeforeAsymmetric(a: Address, b: Address)
    requires Before(a, b)
    ensures a != b && !Before(b, a)
    decreases |a|
  {
    if a != [] && a[0] == b[0] {
      BeforeAsymmetric(a[1..], b[1..]);
    }
  }

  /** There is only one first hit. */
  lemma FirstHitUnique(j: Json, keys: set<string>, a: Address, i: nat, v: Json, b: Address, k: nat, u: Json)
    requires FirstHit(j, keys, a, i, v) && FirstHit(j, keys, b, k, u)
    ensures a == b && i == k && v == u
  {
    if Before(a, b) {
      BeforeAsymmetric(a, b);
    }
  }

  predicate PathHits(j: Json, path: seq<string>) {
    && PathValue(j, path).Some?
    && var v := PathValue(j, path).value; v.Bool? || v.Int? || v.Float?
  }

  /** No hit in the first `c` visited mappings, nor in the first `i` entries of the next one. */
  ghost predicate SearchedTo(j: Json, keys: set<string>, c: nat, i: nat) {
    && (forall d: nat, k: nat :: d < c ==> !EntryHitAt(j, keys, d, k))
    && (forall k: nat :: k < i ==> !EntryHitAt(j, keys, c, k))
  }

  predicate EntryHitAt(j: Json, keys: set<string>, d: nat, k: nat) {
    d < |Walk(j)| && Walk(j)[d].Obj? && EntryHit(Walk(j)[d], keys, k)
  }

  /** A hit at an address is a hit in the walk. */
  lemma HitInWalk(j: Json, keys: set<string>, a: Address, i: nat) returns (d: nat)
    requires Hit(j, keys, a, i)
    ensures d < |Addresses(j)| && Addresses(j)[d] == a && EntryHitAt(j, keys, d, i)
  {
    d := WalkComplete(j, a);
    WalkAddresses(j, d);
  }

  lemma SearchedAll(j: Json, keys: set<string>)
    requires SearchedTo(j, keys, |Walk(j)|, 0)
    ensures NoHit(j, keys)
  {
    forall a: Address, i: nat ensures !Hit(j, keys, a, i) {
      if Hit(j, keys, a, i) {
        var d := HitInWalk(j, keys, a, i);
        WalkLength(j);
      }
    }
  }

  lemma FirstInWalk(j: Json, keys: set<string>, c: nat, i: nat)
    requires SearchedTo(j, keys, c, i) && EntryHitAt(j, keys, c, i)
    ensures c < |Addresses(j)| && FirstHit(j, keys, Addresses(j)[c], i, Walk(j)[c].values[i])
  {
    WalkLength(j);
    WalkAddresses(j, c);
    var a := Addresses(j)[c];
    forall b: Address, k: nat | Hit(j, keys, b, k) ensures (a == b && i <= k) || Before(a, b) {
      var d := HitInWalk(j, keys, b, k);
      if c < d {
        WalkOrdered(j, c, d);
      }
    }
  }

  /** The nested loops over the walk. */
  method WalkSearch(payload: Json, keys: set<string>) returns (r: Option<Json>)
    ensures r.None? ==> NoHit(payload, keys)
    ensures r.Some? ==> exists a: Address, i: nat :: FirstHit(payload, keys, a, i, r.value)
  {
    var candidates := Walk(payload);
    for c := 0 to |candidates|
      invariant SearchedTo(payload, keys, c, 0)
    {
      WalkLength(payload);
      WalkAddresses(payload, c);
      var candidate := candidates[c];
      for i := 0 to EntryCount(candidate)
        invariant SearchedTo(payload, keys, c, i)
      {
        if candidate.keys[i] in keys && Numeric(candidate.values[i]) {
          FirstInWalk(payload, keys, c, i);
          return Some(candidate.values[i]);
        }
      }
    }
    SearchedAll(payload, keys);
    r := None;
  }

  /** `_extract_first`: the first path that leads to a number, else the first hit of the walk. */
  method ExtractFirst(payload: Json, paths: seq<seq<string>>, keys: set<string>) returns (r: Option<Json>)
    ensures r.Some? ==> Numeric(r.value)
    ensures forall p :: FirstPath(payload, paths, p) ==> r == PathValue(payload, paths[p])
    ensures NoPath(payload, paths) ==> (r.None? ==> NoHit(payload, keys))
    ensures NoPath(payload, paths) && r.Some? ==> exists a: Address, i: nat :: FirstHit(payload, keys, a, i, r.value)
  {
    for p := 0 to |paths|
      invariant forall q :: 0 <= q < p ==> !PathHits(payload, paths[q])
    {
      var value := GetPath(payload, paths[p]);
      if value.Some? && Numeric(value.value) {
        return value;
      }
    }
    r := WalkSearch(payload, keys);
  }

  ghost predicate NoPath(j: Json, paths: seq<seq<string>>) {
    forall q :: 0 <= q < |paths| ==> !PathHits(j, paths[q])
  }

  ghost predicate FirstPath(j: Json, paths: seq<seq<string>>, p: int) {
    0 <= p < |paths| && PathHits(j, paths[p]) && forall q :: 0 <= q < p ==> !PathHits(j, paths[q])
  }

  // ---------------------------------------------------------------- paths are hits

  /** A path that ends in one of the keys and leads to a number is itself a hit. */
  lemma {:induction false} PathIsHit(j: Json, path: seq<string>, keys: set<string>)
    requires path != [] && path[|path| - 1] in keys && PathHits(j, path)
    ensures SomeHit(j, keys, PathValue(j, path).value)
  {
    IndexWithin(j, path[0]);
    var m := Member(j, path[0]).value;
    if |path| == 1 {
      assert path[1..] == [] && PathValue(j, path) == PathValue(j.values[m], []);
      assert Hit(j, keys, [], m);
    } else {
      PathIsHit(j.values[m], path[1..], keys);
      var v := PathValue(j, path).value;
      var a: Address, i: nat :| Hit(j.values[m], keys, a, i) && v == At(j.values[m], a).value.values[i];
      assert ([m] + a)[1..] == a;
      assert Hit(j, keys, [m] + a, i);
    }
  }

  // ---------------------------------------------------------------- the two metrics

  const COST_PATHS := [
    ["totalCost"], ["costUsd"], ["cost_usd"],
    ["metrics", "costUsd"], ["usage", "totalCost"], ["usageDetails", "totalCost"]]
  const COST_KEYS := {"totalCost", "costUsd", "cost_usd", "cost"}
  const TOKEN_PATHS := [
    ["totalTokens"], ["tokenCount"], ["token_count"],
    ["metrics", "tokenCount"], ["usage", "totalTokens"], ["usageDetails", "totalTokens"]]
  const TOKEN_KEYS := {"totalTokens", "tokenCount", "token_count", "tokens"}

  ghost predicate EndInKeys(paths: seq<seq<string>>, keys: set<string>) {
    forall p :: 0 <= p < |paths| ==> paths[p] != [] && paths[p][|paths[p]| - 1] in keys
  }

  function ToFloat(j: Json): real
    requires Numeric(j)
  {
    match j
    case Bool(b) => if b then 1.0 else 0.0
    case Int(n) => n as real
    case Float(r) => r
  }

  /** `int(value)` cuts towards zero. */
  function ToInt(j: Json): int
    requires Numeric(j)
  {
    match j
    case Bool(b) => if b then 1 else 0
    case Int(n) => n
    case Float(r) => if r >= 0.0 then r.Floor else -((-r).Floor)
  }

  /** The result of a metric search: complete, taken from the tree, and the first hit when no fixed path applies. */
  ghost predicate Found(data: Json, paths: seq<seq<string>>, keys: set<string>, v: Option<Json>) {
    && (v.None? <==> NoHit(data, keys))
    && (v.Some? ==> Numeric(v.value) && SomeHit(data, keys, v.value))
    && (v.Some? && NoPath(data, paths) ==> exists a: Address, i: nat :: FirstHit(data, keys, a, i, v.value))
    && (forall p :: FirstPath(data, paths, p) ==> v == PathValue(data, paths[p]))
  }

  /** The keys on the way down to an address: at each step the mapping there has the path's key at the address's
      place. */
  ghost predicate Named(j: Json, a: Address, path: seq<string>)
    decreases |a|
  {
    if a == [] || path == [] then a == [] && path == []
    else
      && j.Obj? && a[0] < EntryCount(j) && j.keys[a[0]] == path[0]
      && Named(j.values[a[0]], a[1..], path[1..])
  }

  /** A path that leads somewhere leads to the node at an address with its keys. */
  lemma {:induction false} PathHasAddress(j: Json, path: seq<string>) returns (a: Address)
    requires PathValue(j, path).Some?
    ensures Named(j, a, path) && At(j, a) == PathValue(j, path)
  {
    a := [];
    if path != [] {
      IndexWithin(j, path[0]);
      var i := Member(j, path[0]).value;
      a := PathHasAddress(j.values[i], path[1..]);
      var b := [i] + a;
      assert b[1..] == a;
      a := b;
    }
  }

  /** In a mapping every key occurs once. */
  ghost predicate KeysOnce(j: Json, a: Address)
    decreases |a|
  {
    j.Obj? ==> (forall i, k :: 0 <= i < k < EntryCount(j) ==> j.keys[i] != j.keys[k])
               && (a != [] && a[0] < EntryCount(j) ==> KeysOnce(j.values[a[0]], a[1..]))
  }

  /** And every address with the path's keys is where the path leads. */
  lemma {:induction false} AddressHasPath(j: Json, a: Address, path: seq<string>)
    requires Named(j, a, path) && KeysOnce(j, a)
    ensures PathValue(j, path) == At(j, a) && At(j, a).Some?
    decreases |a|
  {
    if a != [] {
      IndexOfFinds(j.keys[..EntryCount(j)], path[0]);
      IndexWithin(j, path[0]);
      assert path[0] == j.keys[..EntryCount(j)][a[0]];
      AddressHasPath(j.values[a[0]], a[1..], path[1..]);
    }
  }

  /** Fixed paths only change which hit is preferred: if each path ends in a recursive key, the
      search fails exactly when the tree holds no hit at all. */
  method FindMetric(data: Json, paths: seq<seq<string>>, keys: set<string>) returns (v: Option<Json>)
    requires EndInKeys(paths, keys)
    ensures Found(data, paths, keys, v)
  {
    v := ExtractFirst(data, paths, keys);
    if NoPath(data, paths) {
      FoundByWalk(data, paths, keys, v);
    } else {
      FoundByPath(data, paths, keys, v);
    }
  }

  lemma FoundByWalk(data: Json, paths: seq<seq<string>>, keys: set<string>, v: Option<Json>)
    requires NoPath(data, paths) && (v.None? ==> NoHit(data, keys)) && (v.Some? ==> Numeric(v.value))
    requires v.Some? ==> exists a: Address, i: nat :: FirstHit(data, keys, a, i, v.value)
    ensures Found(data, paths, keys, v)
  {
    if v.Some? {
      FirstIsSome(data, keys, v.value);
    }
  }

  lemma FoundByPath(data: Json, paths: seq<seq<string>>, keys: set<string>, v: Option<Json>)
    requires EndInKeys(paths, keys) && !NoPath(data, paths)
    requires forall p :: FirstPath(data, paths, p) ==> v == PathValue(data, paths[p])
    ensures Found(data, paths, keys, v)
  {
    var p := LeastPath(data, paths);
    assert v == PathValue(data, paths[p]) && PathHits(data, paths[p]);
    PathIsHit(data, paths[p], keys);
    SomeHitIsHit(data, keys, v.value);
  }

  lemma SomeHitIsHit(j: Json, keys: set<string>, v: Json)
    requires SomeHit(j, keys, v)
    ensures !NoHit(j, keys)
  {
  }

  lemma FirstIsSome(j: Json, keys: set<string>, v: Json)
    requires exists a: Address, i: nat :: FirstHit(j, keys, a, i, v)
    ensures SomeHit(j, keys, v) && !NoHit(j, keys)
  {
  }

  lemma LeastPath(j: Json, paths: seq<seq<string>>) returns (p: nat)
    requires !NoPath(j, paths)
    ensures FirstPath(j, paths, p)
  {
    p := 0;
    while !PathHits(j, paths[p])
      invariant p < |paths| && forall q :: 0 <= q < p ==> !PathHits(j, paths[q])
      decreases |paths| - p
    {
      p := p + 1;
    }
  }

  /** The cost search finds `v`, with the paths of the source in their order and its recursive keys. */
  ghost predicate CostFound(data: Json, v: Option<Json>) {
    Found(data,
          [["totalCost"], ["costUsd"], ["cost_usd"],
           ["metrics", "costUsd"], ["usage", "totalCost"], ["usageDetails", "totalCost"]],
          {"totalCost", "costUsd", "cost_usd", "cost"}, v)
  }

  ghost predicate TokensFound(data: Json, v: Option<Json>) {
    Found(data,
          [["totalTokens"], ["tokenCount"], ["token_count"],
           ["metrics", "tokenCount"], ["usage", "totalTokens"], ["usageDetails", "totalTokens"]],
          {"totalTokens", "tokenCount", "token_count", "tokens"}, v)
  }

  /** The number as a real: nothing is rounded, and a boolean counts as one or zero. */
  ghost predicate SameNumber(j: Json, x: real) {
    match j
    case Bool(b) => (b ==> x == 1.0) && (!b ==> x == 0.0)
    case Int(n) => x.Floor == n && x <= n as real
    case Float(r) => x == r
    case _ => false
  }

  /** The integer next to the number on the side of zero. */
  ghost predicate CutTowardsZero(j: Json, t: int) {
    match j
    case Bool(b) => (b ==> t == 1) && (!b ==> t == 0)
    case Int(n) => t == n
    case Float(r) =>
      if r >= 0.0 then 0 <= t && t as real <= r < t as real + 1.0
      else t <= 0 && t as real - 1.0 < r <= t as real
    case _ => false
  }

  lemma CostPathsEndInKeys()
    ensures EndInKeys(COST_PATHS, COST_KEYS)
  {
  }

  lemma TokenPathsEndInKeys()
    ensures EndInKeys(TOKEN_PATHS, TOKEN_KEYS)
  {
  }

  /** `_extract_cost`. */
  method ExtractCost(data: Json) returns (cost: Option<real>)
    ensures exists v :: CostFound(data, v) && (cost.None? <==> v.None?) && (v.Some? ==> SameNumber(v.value, cost.value))
  {
    CostPathsEndInKeys();
    var v := FindMetric(data, COST_PATHS, COST_KEYS);
    cost := if v.Some? then Some(ToFloat(v.value)) else None;
    assert CostFound(data, v);
  }

  /** `_extract_tokens`. */
  method ExtractTokens(data: Json) returns (tokens: Option<int>)
    ensures exists v :: TokensFound(data, v)
              && (tokens.None? <==> v.None?) && (v.Some? ==> CutTowardsZero(v.value, tokens.value))
  {
    TokenPathsEndInKeys();
    var v := FindMetric(data, TOKEN_PATHS, TOKEN_KEYS);
    tokens := if v.Some? then Some(ToInt(v.value)) else None;
    assert TokensFound(data, v);
  }
}
