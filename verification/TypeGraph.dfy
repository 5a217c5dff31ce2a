/** The part of go/types the equality generator walks, and the Go values that inhabit it. */
module TypeGraph {
  /** The pointer identity of a go/types type: two spellings of []string are two nodes. */
  type TypeId = nat

  datatype Field = Field(name: string, exported: bool, embedded: bool, ty: TypeId, tag: string)

  datatype Kind =
    | Basic
    | Pointer(elem: TypeId)
    | Slice(elem: TypeId)
    | Map(key: TypeId, elem: TypeId)
    | Array(elem: TypeId, len: nat)
    | Struct(fields: seq<Field>)
    | Interface
    | Chan
    | Signature

  /** `netip` marks a named type declared in net/netip; `under` is the underlying type. */
  datatype Type =
    | Alias(actual: TypeId)
    | Proper(named: bool, netip: bool, under: Kind)

  type Graph = map<TypeId, Type>

  /** The types the generator visits from T. The key type of a map is not among them: keys are left
      to Go's own lookup, whatever their type. */
  function Refs(T: Type): seq<TypeId> {
    if T.Alias? then [T.actual]
    else if T.netip then []
    else match T.under
      case Pointer(e) => [e]
      case Slice(e) => [e]
      case Map(_, e) => [e]
      case Array(e, _) => [e]
      case Struct(fields) => seq(|fields|, i requires 0 <= i < |fields| => fields[i].ty)
      case _ => []
  }

  /** What the type checker guarantees: references resolve, and an alias names a real type. */
  ghost predicate GraphOk(G: Graph) {
    forall t :: t in G ==>
      && (forall i :: 0 <= i < |Refs(G[t])| ==> Refs(G[t])[i] in G)
      && (G[t].Alias? ==> G[t].actual in G && G[G[t].actual].Proper?)
      && (G[t].Proper? && G[t].under.Map? ==> G[t].under.key in G)
  }

  function Unalias(G: Graph, t: TypeId): TypeId
    requires t in G
  {
    if G[t].Alias? then G[t].actual else t
  }

  /** The types on which the generator panics. */
  predicate Unreviewed(T: Type) {
    && T.Proper?
    && !T.netip
    && (
         || T.under.Interface? || T.under.Chan? || T.under.Signature?
         || (T.under.Struct? && exists i :: 0 <= i < |T.under.fields| && !T.under.fields[i].exported))
  }

  ghost predicate Edge(G: Graph, t: TypeId, c: TypeId) {
    && t in G
    && G[t].Proper?
    && exists i :: 0 <= i < |Refs(G[t])| && Refs(G[t])[i] in G && c == Unalias(G, Refs(G[t])[i])
  }

  ghost predicate IsPath(G: Graph, path: seq<TypeId>) {
    && |path| > 0
    && forall i :: 0 < i < |path| ==> Edge(G, path[i - 1], path[i])
  }

  ghost predicate Reachable(G: Graph, root: TypeId, t: TypeId) {
    && root in G
    && exists path :: IsPath(G, path) && path[0] == Unalias(G, root) && path[|path| - 1] == t
  }

  lemma ReachRoot(G: Graph, root: TypeId)
    requires root in G
    ensures Reachable(G, root, Unalias(G, root))
  {
    assert IsPath(G, [Unalias(G, root)]);
  }

  lemma ReachStep(G: Graph, root: TypeId, t: TypeId, i: nat)
    requires GraphOk(G) && Reachable(G, root, t)
    requires t in G && G[t].Proper? && i < |Refs(G[t])|
    ensures Reachable(G, root, Unalias(G, Refs(G[t])[i]))
  {
    var path :| IsPath(G, path) && path[0] == Unalias(G, root) && path[|path| - 1] == t;
    var longer := path + [Unalias(G, Refs(G[t])[i])];
    assert Edge(G, t, longer[|path|]);
    assert forall j :: 0 < j < |path| ==> Edge(G, longer[j - 1], longer[j]);
    assert IsPath(G, longer);
  }

  /** A set that holds the root and is closed under edges holds everything reachable. */
  lemma {:induction false} ClosedSetHoldsReachable(G: Graph, closed: set<TypeId>, path: seq<TypeId>)
    requires IsPath(G, path) && path[0] in closed
    requires forall t, c :: t in closed && Edge(G, t, c) ==> c in closed
    ensures path[|path| - 1] in closed
  {
    if |path| > 1 {
      assert Edge(G, path[0], path[1]);
      var rest := path[1..];
      assert forall i :: 0 < i < |rest| ==> rest[i - 1] == path[i] && rest[i] == path[i + 1];
      ClosedSetHoldsReachable(G, closed, rest);
    }
  }

  // ---------------------------------------------------------------- values

  /** Finite Go values. Pointers, slices, maps, channels and functions carry the address that
      distinguishes two equal-looking objects; nil and empty are different values. A map is held
      under what Go's == sees of each key. */
  datatype Value =
    | Scalar(bits: int)
    | NilPtr
    | Ptr(addr: nat, pointee: Value)
    | NilSlice
    | SliceOf(addr: nat, items: seq<Value>)
    | NilMap
    | MapOf(addr: nat, entries: map<Key, Entry>)
    | ArrayOf(elems: seq<Value>)
    | StructOf(parts: map<string, Value>)
    | NilInterface
    | Boxed(dynamic: nat, content: Value)
    | NilHandle
    | Handle(addr: nat)

  datatype Entry = Entry(key: Value, elem: Value)

  /** What Go's == compares: pointers, channels by address, the rest componentwise. */
  datatype Key =
    | Bits(bits: int)
    | NilKey
    | Address(addr: nat)
    | Elements(elems: seq<Key>)
    | Parts(parts: map<string, Key>)
    | Dynamic(dynamic: nat, content: Key)
    | Uncomparable

  function KeyIdentity(v: Value): Key
    decreases v
  {
    match v
    case Scalar(n) => Bits(n)
    case NilPtr => NilKey
    case Ptr(a, _) => Address(a)
    case NilInterface => NilKey
    case Boxed(d, c) => Dynamic(d, KeyIdentity(c))
    case NilHandle => NilKey
    case Handle(a) => Address(a)
    case ArrayOf(elems) => Elements(seq(|elems|, i requires 0 <= i < |elems| => KeyIdentity(elems[i])))
    case StructOf(parts) => Parts(map n | n in parts :: KeyIdentity(parts[n]))
    case _ => Uncomparable
  }

  /** An interface may hold a value of any type, in the graph or not. */
  ghost predicate HasType(G: Graph, t: TypeId, v: Value)
    requires GraphOk(G) && t in G
    decreases v
  {
    var T := G[Unalias(G, t)];
    if T.netip then v.Scalar?
    else match T.under
      case Basic => v.Scalar?
      case Pointer(e) => v.NilPtr? || (v.Ptr? && HasType(G, Refs(T)[0], v.pointee))
      case Slice(e) => v.NilSlice? || (v.SliceOf? && forall x :: x in v.items ==> HasType(G, Refs(T)[0], x))
      case Map(k, e) => v.NilMap? || (v.MapOf? && forall id :: id in v.entries ==>
        && KeyIdentity(v.entries[id].key) == id
        && HasType(G, k, v.entries[id].key)
        && HasType(G, Refs(T)[0], v.entries[id].elem))
      case Array(e, len) => v.ArrayOf? && |v.elems| == len && forall x :: x in v.elems ==> HasType(G, Refs(T)[0], x)
      case Struct(fields) =>
        && v.StructOf?
        && v.parts.Keys == (set i | 0 <= i < |fields| :: fields[i].name)
        && forall i :: 0 <= i < |fields| ==> HasType(G, Refs(T)[i], v.parts[fields[i].name])
      case Interface => v.NilInterface? || v.Boxed?
      case Chan => v.NilHandle? || v.Handle?
      case Signature => v.NilHandle? || v.Handle?
  }

  /** What is left of a value once addresses are forgotten. A map is either a table by key identity
      or, when keys are erased too, a count of its rows. */
  datatype Tree =
    | Leaf(bits: int)
    | Nil
    | Pointee(tree: Tree)
    | List(trees: seq<Tree>)
    | Table(byIdentity: map<Key, Tree>)
    | Bag(counts: map<(Tree, Tree), nat>)
    | Record(columns: map<string, Tree>)
    | Box(dynamic: nat, tree: Tree)
    | Opaque

  /** How often a row occurs: under different identities, equal-looking keys give equal rows. */
  function Occurrences(rows: map<Key, (Tree, Tree)>, row: (Tree, Tree)): nat {
    |set id | id in rows && rows[id] == row|
  }

  function Tally(rows: map<Key, (Tree, Tree)>): map<(Tree, Tree), nat> {
    map row | row in rows.Values :: Occurrences(rows, row)
  }

  /** What is left of each entry of a map when keys are erased too. */
  function Rows(v: Value): map<Key, (Tree, Tree)>
    requires v.MapOf?
    decreases v, 0
  {
    map id | id in v.entries :: (Erased(v.entries[id].key, false), Erased(v.entries[id].elem, false))
  }

  function Erased(v: Value, keepKeys: bool): Tree
    decreases v, 1
  {
    match v
    case Scalar(n) => Leaf(n)
    case NilPtr => Nil
    case Ptr(_, p) => Pointee(Erased(p, keepKeys))
    case NilSlice => Nil
    case SliceOf(_, items) => List(seq(|items|, i requires 0 <= i < |items| => Erased(items[i], keepKeys)))
    case NilMap => Nil
    case MapOf(_, entries) =>
      if keepKeys then Table(map id | id in entries :: Erased(entries[id].elem, keepKeys))
      else Bag(Tally(Rows(v)))
    case ArrayOf(elems) => List(seq(|elems|, i requires 0 <= i < |elems| => Erased(elems[i], keepKeys)))
    case StructOf(parts) => Record(map n | n in parts :: Erased(parts[n], keepKeys))
    case NilInterface => Nil
    case Boxed(d, c) => Box(d, Erased(c, keepKeys))
    case NilHandle => Nil
    case Handle(_) => Opaque
  }

  /** The structure of a value: every address forgotten, also those in map keys. */
  function Structure(v: Value): Tree {
    Erased(v, false)
  }

  /** The structure of a value with map keys taken as Go's == sees them. */
  function Compared(v: Value): Tree {
    Erased(v, true)
  }
}
