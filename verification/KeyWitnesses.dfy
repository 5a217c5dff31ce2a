/** Types whose map keys can hold an address have values with the same structure that the emitted
    code tells apart; so the emitted code decides structure exactly when no key holds an address. */
module KeyWitnesses {
  import opened Basics
  import opened TypeGraph
  import opened GoFragment
  import opened GeneratorCorrectness
  import opened MapKeys

  /** What the Go type checker guarantees beyond `GraphOk`: no type contains itself by value, field
      names are distinct, and keys are comparable. */
  ghost predicate Legal(G: Graph, rank: TypeId -> nat) {
    && GraphOk(G)
    && (forall t, c :: Part(G, t, c, true) ==> rank(c) < rank(t))
    && (forall t :: t in G && G[t].Proper? && G[t].under.Struct? ==> DistinctNames(G[t].under.fields))
    && (forall t :: t in G && G[t].Proper? && !G[t].netip && G[t].under.Map? ==> Comparable(G, G[t].under.key))
  }

  ghost predicate DistinctNames(fields: seq<Field>) {
    forall i, j :: 0 <= i < j < |fields| ==> fields[i].name != fields[j].name
  }

  ghost predicate Comparable(G: Graph, t: TypeId)
    requires GraphOk(G) && t in G
  {
    forall path :: PartPath(G, path, true) && path[0] == Unalias(G, t) ==> !Uncompared(G[path[|path| - 1]])
  }

  predicate Uncompared(T: Type) {
    T.Proper? && !T.netip && (T.under.Slice? || T.under.Map? || T.under.Signature?)
  }

  // ---------------------------------------------------------------- zero values

  function IndexOf(fields: seq<Field>, name: string): (i: nat)
    requires exists j :: 0 <= j < |fields| && fields[j].name == name
    ensures i < |fields| && fields[i].name == name
  {
    if fields[0].name == name then 0 else
    assert exists j :: 0 <= j < |fields[1..]| && fields[1..][j].name == name by {
      var j :| 0 <= j < |fields| && fields[j].name == name;
      assert fields[1..][j - 1].name == name;
    }
    1 + IndexOf(fields[1..], name)
  }

  ghost function Zero(G: Graph, rank: TypeId -> nat, t: TypeId): Value
    requires Legal(G, rank) && t in G && G[t].Proper?
    decreases rank(t)
  {
    var T := G[t];
    if T.netip then Scalar(0)
    else match T.under
      case Basic => Scalar(0)
      case Pointer(_) => NilPtr
      case Slice(_) => NilSlice
      case Map(_, _) => NilMap
      case Array(_, len) => ArrayOf(if len == 0 then [] else Copies(len, ZeroPart(G, rank, t, 0)))
      case Struct(fields) =>
        StructOf(map n | n in (set i | 0 <= i < |fields| :: fields[i].name) :: ZeroPart(G, rank, t, IndexOf(fields, n)))
      case Interface => NilInterface
      case Chan => NilHandle
      case Signature => NilHandle
  }

  ghost function ZeroPart(G: Graph, rank: TypeId -> nat, t: TypeId, i: nat): Value
    requires Legal(G, rank) && t in G && G[t].Proper? && i < |Refs(G[t])|
    requires (G[t].under.Array? && G[t].under.len > 0) || G[t].under.Struct?
    decreases rank(t), 0
  {
    NthPart(G, t, i, true);
    Zero(G, rank, Unalias(G, Refs(G[t])[i]))
  }

  function Copies(n: nat, v: Value): (r: seq<Value>)
    ensures |r| == n && forall i :: 0 <= i < n ==> r[i] == v
  {
    seq(n, _ => v)
  }

  lemma {:induction false} ZeroTyped(G: Graph, rank: TypeId -> nat, t: TypeId)
    requires Legal(G, rank) && t in G && G[t].Proper?
    ensures HasType(G, t, Zero(G, rank, t))
    decreases rank(t)
  {
    var T := G[t];
    if !T.netip && T.under.Array? && T.under.len > 0 {
      ZeroPartTyped(G, rank, t, 0);
    } else if !T.netip && T.under.Struct? {
      var fields := T.under.fields;
      var parts := Zero(G, rank, t).parts;
      forall i | 0 <= i < |fields| ensures HasType(G, Refs(T)[i], parts[fields[i].name]) {
        assert IndexOf(fields, fields[i].name) == i;
        ZeroPartTyped(G, rank, t, i);
      }
    }
  }

  lemma {:induction false} ZeroPartTyped(G: Graph, rank: TypeId -> nat, t: TypeId, i: nat)
    requires Legal(G, rank) && t in G && G[t].Proper? && i < |Refs(G[t])|
    requires (G[t].under.Array? && G[t].under.len > 0) || G[t].under.Struct?
    ensures HasType(G, Refs(G[t])[i], ZeroPart(G, rank, t, i))
    decreases rank(t), 0
  {
    hide HasType;
    NthPart(G, t, i, true);
    ZeroTyped(G, rank, Unalias(G, Refs(G[t])[i]));
    HasTypeUnalias(G, Refs(G[t])[i], ZeroPart(G, rank, t, i));
  }

  // ---------------------------------------------------------------- a value around one of its parts

  /** A value of t that holds x as its part c; `addr` is where it lives, if it has an address. */
  ghost function Around(G: Graph, rank: TypeId -> nat, t: TypeId, c: TypeId, x: Value, addr: nat): Value
    requires Legal(G, rank) && Part(G, t, c, false)
  {
    match G[t].under
    case Pointer(_) => Ptr(addr, x)
    case Slice(_) => SliceOf(addr, [x])
    case Map(k, _) => OneEntry(addr, Zero(G, rank, Unalias(G, k)), x)
    case Array(_, len) => ArrayOf(Copies(len, x))
    case Struct(fields) => StructOf(Zero(G, rank, t).parts[fields[RefTo(G, t, c)].name := x])
    case _ => x
  }

  function OneEntry(addr: nat, key: Value, elem: Value): Value {
    MapOf(addr, map[KeyIdentity(key) := Entry(key, elem)])
  }

  ghost function RefTo(G: Graph, t: TypeId, c: TypeId): (i: nat)
    requires GraphOk(G) && Part(G, t, c, false)
    ensures i < |Refs(G[t])| && Unalias(G, Refs(G[t])[i]) == c
  {
    var i: nat :| i < |Refs(G[t])| && Refs(G[t])[i] in G && c == Unalias(G, Refs(G[t])[i]);
    i
  }

  lemma AroundTyped(G: Graph, rank: TypeId -> nat, t: TypeId, c: TypeId, x: Value, addr: nat)
    requires Legal(G, rank) && Part(G, t, c, false) && c in G && HasType(G, c, x)
    ensures HasType(G, t, Around(G, rank, t, c, x, addr))
  {
    var T := G[t];
    var i := RefTo(G, t, c);
    HasTypeUnalias(G, Refs(T)[i], x);
    if T.under.Map? {
      var k := Unalias(G, T.under.key);
      ZeroTyped(G, rank, k);
      HasTypeUnalias(G, T.under.key, Zero(G, rank, k));
      EntryTyped(G, t, Zero(G, rank, k), x, addr);
    } else if T.under.Struct? {
      ZeroTyped(G, rank, t);
      FieldReplaced(G, t, Zero(G, rank, t), i, x);
    } else {
      hide Legal, Zero, RefTo;
    }
  }

  lemma EntryTyped(G: Graph, t: TypeId, k: Value, x: Value, addr: nat)
    requires GraphOk(G) && t in G && G[t].Proper? && !G[t].netip && G[t].under.Map?
    requires HasType(G, G[t].under.key, k) && HasType(G, Refs(G[t])[0], x)
    ensures HasType(G, t, OneEntry(addr, k, x))
  {
    hide KeyIdentity;
    var m := OneEntry(addr, k, x);
    forall id | id in m.entries
      ensures KeyIdentity(m.entries[id].key) == id && HasType(G, G[t].under.key, m.entries[id].key) && HasType(G, Refs(G[t])[0], m.entries[id].elem)
    {
      assert m.entries[id] == Entry(k, x);
    }
  }

  lemma FieldReplaced(G: Graph, t: TypeId, v: Value, i: nat, x: Value)
    requires GraphOk(G) && t in G && G[t].Proper? && !G[t].netip && G[t].under.Struct? && DistinctNames(G[t].under.fields)
    requires HasType(G, t, v) && i < |G[t].under.fields| && HasType(G, G[t].under.fields[i].ty, x)
    ensures v.StructOf? && HasType(G, t, StructOf(v.parts[G[t].under.fields[i].name := x]))
  {
    var fields := G[t].under.fields;
    FieldNames(G, t, v);
    var parts := v.parts[fields[i].name := x];
    assert fields[i].name in v.parts.Keys;
    assert parts.Keys == v.parts.Keys;
    forall j | 0 <= j < |fields| ensures HasType(G, Refs(G[t])[j], parts[fields[j].name]) {
      if j != i {
        assert fields[j].name != fields[i].name by {
          if j < i { assert fields[j].name != fields[i].name; } else { assert fields[i].name != fields[j].name; }
        }
      }
    }
  }

  /** v is told apart from u whenever y is from x; their structures agree whenever those of x and y do. */
  ghost predicate Keeps(x: Value, y: Value, u: Value, v: Value, byValue: bool) {
    && (Structure(x) == Structure(y) ==> Structure(u) == Structure(v))
    && (Compared(u) == Compared(v) ==> Compared(x) == Compared(y))
    && (byValue && KeyIdentity(u) == KeyIdentity(v) ==> KeyIdentity(x) == KeyIdentity(y))
  }

  lemma PointerKeeps(x: Value, y: Value, a: nat, b: nat)
    ensures Keeps(x, y, Ptr(a, x), Ptr(b, y), false)
  {
  }

  lemma SliceKeeps(x: Value, y: Value, a: nat, b: nat)
    ensures Keeps(x, y, SliceOf(a, [x]), SliceOf(b, [y]), false)
  {
    var u, v := SliceOf(a, [x]), SliceOf(b, [y]);
    SequenceByItems([x], [y], true);
    SequenceByItems([x], [y], false);
    assert Compared(u).trees[0] == Compared(x) && Compared(v).trees[0] == Compared(y);
  }

  lemma ArrayKeeps(n: nat, x: Value, y: Value, byValue: bool)
    requires n > 0
    ensures Keeps(x, y, ArrayOf(Copies(n, x)), ArrayOf(Copies(n, y)), byValue)
  {
    var u, v := Copies(n, x), Copies(n, y);
    ArrayByElements(ArrayOf(u), ArrayOf(v));
    hide Erased, KeyIdentity;
    assert u[0] == x && v[0] == y;
  }

  lemma StructKeeps(parts: map<string, Value>, n: string, x: Value, y: Value, byValue: bool)
    requires n in parts
    ensures Keeps(x, y, StructOf(parts[n := x]), StructOf(parts[n := y]), byValue)
  {
    var u, v := parts[n := x], parts[n := y];
    SameButOne(parts, n, u, v);
    hide Erased, KeyIdentity;
    ErasedByParts(StructOf(u), StructOf(v), false);
    ErasedByParts(StructOf(u), StructOf(v), true);
    IdentityByParts(StructOf(u), StructOf(v));
  }

  lemma SameButOne<K, V>(m: map<K, V>, k: K, u: map<K, V>, v: map<K, V>)
    requires k in m && k in u && k in v && u == m[k := u[k]] && v == m[k := v[k]]
    ensures u.Keys == v.Keys
    ensures forall j :: j in u && j != k ==> u[j] == v[j]
  {
  }

  lemma OneRow(id: Key, row: (Tree, Tree))
    ensures Tally(map[id := row]) == map[row := 1]
  {
    var rows := map[id := row];
    assert rows[id] == row;
    assert rows.Values == {row};
    assert (set i | i in rows && rows[i] == row) == {id};
  }

  lemma OneEntryBag(addr: nat, k: Value, z: Value)
    ensures Structure(OneEntry(addr, k, z)) == Bag(map[(Structure(k), Structure(z)) := 1])
  {
    var m := OneEntry(addr, k, z);
    var row := (Structure(k), Structure(z));
    BagOf(m);
    OneRow(KeyIdentity(k), row);
    hide Structure, Rows, KeyIdentity, Tally;
    assert m.entries.Keys == {KeyIdentity(k)};
    assert Rows(m) == map[KeyIdentity(k) := row];
  }

  lemma OneEntryTable(addr: nat, k: Value, z: Value)
    ensures Compared(OneEntry(addr, k, z)) == Table(map[KeyIdentity(k) := Compared(z)])
  {
    var m := OneEntry(addr, k, z);
    TableOf(m);
    hide Compared, KeyIdentity;
    assert m.entries.Keys == {KeyIdentity(k)};
    assert Compared(m).byIdentity == map[KeyIdentity(k) := Compared(z)];
  }

  lemma EntryKeeps(z: Value, x: Value, y: Value, a: nat, b: nat)
    ensures Keeps(x, y, OneEntry(a, z, x), OneEntry(b, z, y), false)
  {
    OneEntryBag(a, z, x);
    OneEntryBag(b, z, y);
    OneEntryTable(a, z, x);
    OneEntryTable(b, z, y);
    hide Structure, Compared, OneEntry, KeyIdentity;
    var t, u := map[KeyIdentity(z) := Compared(x)], map[KeyIdentity(z) := Compared(y)];
    assert t[KeyIdentity(z)] == Compared(x) && u[KeyIdentity(z)] == Compared(y);
  }

  /** Keys of the same structure but different identity make maps the emitted code tells apart. */
  lemma KeysTellMapsApart(k: Value, l: Value, z: Value, a: nat, b: nat)
    requires Structure(k) == Structure(l) && KeyIdentity(k) != KeyIdentity(l)
    ensures Structure(OneEntry(a, k, z)) == Structure(OneEntry(b, l, z))
    ensures Compared(OneEntry(a, k, z)) != Compared(OneEntry(b, l, z))
  {
    OneEntryBag(a, k, z);
    OneEntryBag(b, l, z);
    OneEntryTable(a, k, z);
    OneEntryTable(b, l, z);
    hide Structure, Compared, OneEntry, KeyIdentity;
    var t, u := map[KeyIdentity(k) := Compared(z)], map[KeyIdentity(l) := Compared(z)];
    assert KeyIdentity(k) in t && KeyIdentity(k) !in u;
  }

  lemma AroundKeeps(G: Graph, rank: TypeId -> nat, t: TypeId, c: TypeId, x: Value, y: Value, a: nat, b: nat, byValue: bool)
    requires Legal(G, rank) && Part(G, t, c, false) && Part(G, t, c, byValue)
    ensures Keeps(x, y, Around(G, rank, t, c, x, a), Around(G, rank, t, c, y, b), byValue)
  {
    hide Keeps, Structure, Compared, KeyIdentity;
    var T := G[t];
    if T.under.Pointer? {
      PointerKeeps(x, y, a, b);
    } else if T.under.Slice? {
      SliceKeeps(x, y, a, b);
    } else if T.under.Map? {
      EntryKeeps(Zero(G, rank, Unalias(G, T.under.key)), x, y, a, b);
    } else if T.under.Array? {
      ArrayKeeps(T.under.len, x, y, byValue);
    } else {
      StructKeeps(Zero(G, rank, t).parts, T.under.fields[RefTo(G, t, c)].name, x, y, byValue);
    }
  }

  // ---------------------------------------------------------------- witnesses

  /** Two keys that differ in one address only. */
  lemma {:induction false} KeyPair(G: Graph, rank: TypeId -> nat, path: seq<TypeId>) returns (x: Value, y: Value)
    requires Legal(G, rank) && PartPath(G, path, true)
    requires HoldsAddress(G[path[|path| - 1]]) && !Uncompared(G[path[|path| - 1]])
    ensures path[0] in G && HasType(G, path[0], x) && HasType(G, path[0], y)
    ensures Structure(x) == Structure(y) && KeyIdentity(x) != KeyIdentity(y)
  {
    if |path| == 1 {
      x, y := TwoAddresses(G, rank, path[0]);
    } else {
      TailPath(G, path, true);
      assert Part(G, path[0], path[1], true);
      x, y := KeyPair(G, rank, path[1..]);
      hide HasType, Structure, KeyIdentity, Legal;
      AroundTyped(G, rank, path[0], path[1], x, 0);
      AroundTyped(G, rank, path[0], path[1], y, 0);
      AroundKeeps(G, rank, path[0], path[1], x, y, 0, 0, true);
      x, y := Around(G, rank, path[0], path[1], x, 0), Around(G, rank, path[0], path[1], y, 0);
    }
  }

  lemma TailPath(G: Graph, path: seq<TypeId>, byValue: bool)
    requires PartPath(G, path, byValue) && |path| > 1
    ensures PartPath(G, path[1..], byValue)
  {
    var rest := path[1..];
    assert forall i :: 0 < i < |rest| ==> rest[i - 1] == path[i] && rest[i] == path[i + 1];
    assert forall i :: 0 < i < |path| ==> Part(G, path[i - 1], path[i], byValue);
  }

  lemma TwoAddresses(G: Graph, rank: TypeId -> nat, t: TypeId) returns (x: Value, y: Value)
    requires Legal(G, rank) && t in G && G[t].Proper? && HoldsAddress(G[t]) && !Uncompared(G[t])
    ensures HasType(G, t, x) && HasType(G, t, y) && Structure(x) == Structure(y) && KeyIdentity(x) != KeyIdentity(y)
  {
    match G[t].under {
      case Pointer(_) =>
        var z := Zero(G, rank, Unalias(G, Refs(G[t])[0]));
        ZeroTyped(G, rank, Unalias(G, Refs(G[t])[0]));
        HasTypeUnalias(G, Refs(G[t])[0], z);
        x, y := Ptr(1, z), Ptr(2, z);
      case Interface =>
        x, y := Boxed(0, Ptr(1, NilPtr)), Boxed(0, Ptr(2, NilPtr));
      case Chan =>
        x, y := Handle(1), Handle(2);
    }
  }

  /** Two values of the same structure that the emitted code tells apart. */
  lemma {:induction false} ValuePair(G: Graph, rank: TypeId -> nat, path: seq<TypeId>) returns (x: Value, y: Value)
    requires Legal(G, rank) && PartPath(G, path, false) && !MapKeyFree(G, path[|path| - 1])
    ensures path[0] in G && HasType(G, path[0], x) && HasType(G, path[0], y)
    ensures Structure(x) == Structure(y) && Compared(x) != Compared(y)
  {
    if |path| == 1 {
      x, y := MapPair(G, rank, path[0]);
    } else {
      TailPath(G, path, false);
      assert Part(G, path[0], path[1], false);
      assert path[1..][|path| - 2] == path[|path| - 1];
      hide Part, MapKeyFree, HasType, Structure, Compared;
      x, y := ValuePair(G, rank, path[1..]);
      x, y := PairAround(G, rank, path[0], path[1], x, y, 2 * |path| + 1);
    }
  }

  lemma PairAround(G: Graph, rank: TypeId -> nat, t: TypeId, c: TypeId, x: Value, y: Value, addr: nat) returns (u: Value, v: Value)
    requires Legal(G, rank) && Part(G, t, c, false) && c in G && HasType(G, c, x) && HasType(G, c, y)
    requires Structure(x) == Structure(y) && Compared(x) != Compared(y)
    ensures HasType(G, t, u) && HasType(G, t, v) && Structure(u) == Structure(v) && Compared(u) != Compared(v)
  {
    hide HasType, Structure, Compared, KeyIdentity, Around;
    AroundTyped(G, rank, t, c, x, addr);
    AroundTyped(G, rank, t, c, y, addr + 1);
    AroundKeeps(G, rank, t, c, x, y, addr, addr + 1, false);
    u, v := Around(G, rank, t, c, x, addr), Around(G, rank, t, c, y, addr + 1);
  }

  lemma MapPair(G: Graph, rank: TypeId -> nat, t: TypeId) returns (x: Value, y: Value)
    requires Legal(G, rank) && t in G && G[t].Proper? && !MapKeyFree(G, t)
    ensures HasType(G, t, x) && HasType(G, t, y) && Structure(x) == Structure(y) && Compared(x) != Compared(y)
  {
    var k, e := G[t].under.key, Unalias(G, Refs(G[t])[0]);
    var path :| PartPath(G, path, true) && path[0] == Unalias(G, k) && HoldsAddress(G[path[|path| - 1]]);
    var p, q := KeyPair(G, rank, path);
    var z := Zero(G, rank, e);
    ZeroTyped(G, rank, e);
    hide HasType, Structure, Compared, KeyIdentity, PartPath, Zero;
    HasTypeUnalias(G, k, p);
    HasTypeUnalias(G, k, q);
    HasTypeUnalias(G, Refs(G[t])[0], z);
    EntryTyped(G, t, p, z, 3);
    EntryTyped(G, t, q, z, 4);
    KeysTellMapsApart(p, q, z, 3, 4);
    x, y := OneEntry(3, p, z), OneEntry(4, q, z);
  }

  // ---------------------------------------------------------------- the exact condition

  ghost predicate StructureIsCompared(G: Graph, t: TypeId)
    requires GraphOk(G) && t in G
  {
    forall a, b :: HasType(G, t, a) && HasType(G, t, b) ==> Agree(a, b)
  }

  /** Comparing keys by Go's == loses nothing exactly when no map key of the type holds an address. */
  lemma KeysDecide(G: Graph, rank: TypeId -> nat, t: TypeId)
    requires Legal(G, rank) && t in G && Reviewed(G, t)
    ensures StructureIsCompared(G, t) <==> KeysAddressFree(G, t)
  {
    var u := Unalias(G, t);
    if KeysAddressFree(G, t) {
      forall a, b | HasType(G, t, a) && HasType(G, t, b) ensures Agree(a, b) {
        assert Settled(G, u);
        hide HasType, Agree, Settled;
        HasTypeUnalias(G, t, a);
        HasTypeUnalias(G, t, b);
        ComparedIsStructure(G, u, a, b);
      }
    } else {
      var path :| PartPath(G, path, false) && path[0] == u && !MapKeyFree(G, path[|path| - 1]);
      var x, y := ValuePair(G, rank, path);
      HasTypeUnalias(G, t, x);
      HasTypeUnalias(G, t, y);
      assert !Agree(x, y);
    }
  }

  /** equalSpec(a, b) returns whether a and b have the same structure, whatever the order of maps. */
  ghost predicate DecidesStructure(G: Graph, root: TypeId, P: Program)
    requires GraphOk(G) && root in G
  {
    forall order: (Value, Value) -> seq<Key>, a: Value, b: Value ::
      Fair(order) && HasType(G, root, a) && HasType(G, root, b) ==>
        Call(Machine(P, order), 0, a, b) == Some(Structure(a) == Structure(b))
  }

  ghost function SomeOrder(): (order: (Value, Value) -> seq<Key>)
    ensures Fair(order)
  {
    (a: Value, b: Value) => if a.MapOf? then Listing(a.entries.Keys) else []
  }

  /** An accepted program decides structural equality of the root type if and only if no key of a
      map in it holds an address. */
  lemma EmittedDecidesStructureIff(G: Graph, rank: TypeId -> nat, root: TypeId, names: map<TypeId, nat>, P: Program)
    requires Legal(G, rank) && Finished(G, root, names, P)
    ensures DecidesStructure(G, root, P) <==> KeysAddressFree(G, root)
  {
    EverythingReachableIsNamed(G, root, names, P);
    FinishedDecides(G, root, names, P);
    KeysDecide(G, rank, root);
    hide Finished, Legal, Reviewed, KeysAddressFree, HasType, Fair, Call;
    if DecidesStructure(G, root, P) {
      forall a, b | HasType(G, root, a) && HasType(G, root, b) ensures Agree(a, b) {
        assert Call(Machine(P, SomeOrder()), 0, a, b) == Some(Structure(a) == Structure(b));
        assert Call(Machine(P, SomeOrder()), 0, a, b) == Some(Compared(a) == Compared(b));
      }
    }
    if StructureIsCompared(G, root) {
      forall order: (Value, Value) -> seq<Key>, a: Value, b: Value | Fair(order) && HasType(G, root, a) && HasType(G, root, b)
        ensures Call(Machine(P, order), 0, a, b) == Some(Structure(a) == Structure(b))
      {
        assert Agree(a, b);
        assert Call(Machine(P, order), 0, a, b) == Some(Compared(a) == Compared(b));
      }
    }
  }

  function PointerKeyed(): Graph {
    map[0 := Proper(false, false, Map(1, 2)), 1 := Proper(false, false, Pointer(2)), 2 := Proper(false, false, Basic)]
  }

  function SevenUnder(addr: nat): Value {
    OneEntry(addr, Ptr(addr + 10, Scalar(7)), Scalar(0))
  }

  /** map[*int]int is accepted, and its function tells apart two maps of the same structure. */
  lemma PointerKeysAreToldApart()
    ensures Reviewed(PointerKeyed(), 0)
    ensures HasType(PointerKeyed(), 0, SevenUnder(1)) && HasType(PointerKeyed(), 0, SevenUnder(2))
    ensures Structure(SevenUnder(1)) == Structure(SevenUnder(2))
    ensures forall names, P, order: (Value, Value) -> seq<Key> ::
      Finished(PointerKeyed(), 0, names, P) && Fair(order) ==> Call(Machine(P, order), 0, SevenUnder(1), SevenUnder(2)) == Some(false)
  {
    var G := PointerKeyed();
    PointerKeyedReviewed();
    hide Reviewed;
    SevensTyped(1);
    SevensTyped(2);
    SamePointee(Ptr(11, Scalar(7)), Ptr(12, Scalar(7)));
    hide HasType, Structure, Compared, OneEntry, KeyIdentity;
    KeysTellMapsApart(Ptr(11, Scalar(7)), Ptr(12, Scalar(7)), Scalar(0), 1, 2);
    hide SevenUnder, PointerKeyed, Finished, Fair, Call;
    forall names, P, order: (Value, Value) -> seq<Key> | Finished(G, 0, names, P) && Fair(order)
      ensures Call(Machine(P, order), 0, SevenUnder(1), SevenUnder(2)) == Some(false)
    {
      FinishedDecides(G, 0, names, P);
    }
  }

  lemma PointerKeyedReviewed()
    ensures Reviewed(PointerKeyed(), 0)
  {
  }

  lemma SevensTyped(addr: nat)
    ensures GraphOk(PointerKeyed()) && HasType(PointerKeyed(), 0, SevenUnder(addr))
  {
    EntryTyped(PointerKeyed(), 0, Ptr(addr + 10, Scalar(7)), Scalar(0), addr);
  }

  lemma SamePointee(k: Value, l: Value)
    requires k.Ptr? && l.Ptr? && k.addr != l.addr && k.pointee == l.pointee
    ensures Structure(k) == Structure(l) && KeyIdentity(k) != KeyIdentity(l)
  {
  }
}
