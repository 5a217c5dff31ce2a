/** When comparing map keys by Go's == is the same as comparing them by structure: exactly when
    no key type can hold an address. */
module MapKeys {
  import opened Basics
  import opened TypeGraph
  import opened GeneratorCorrectness

  // ---------------------------------------------------------------- types

  /** c is part of some value of t: of its own memory if `byValue`, else possibly behind it. An
      array of length zero has no parts. */
  ghost predicate Part(G: Graph, t: TypeId, c: TypeId, byValue: bool) {
    && Edge(G, t, c)
    && !(G[t].under.Array? && G[t].under.len == 0)
    && (byValue ==> G[t].under.Array? || G[t].under.Struct?)
  }

  ghost predicate PartPath(G: Graph, path: seq<TypeId>, byValue: bool) {
    && |path| > 0 && path[|path| - 1] in G && G[path[|path| - 1]].Proper?
    && forall i :: 0 < i < |path| ==> Part(G, path[i - 1], path[i], byValue)
  }

  predicate HoldsAddress(T: Type) {
    T.Proper? && !T.netip && !T.under.Basic? && !T.under.Array? && !T.under.Struct?
  }

  /** Values of t are scalars, arrays and structs all the way down. */
  ghost predicate AddressFree(G: Graph, t: TypeId)
    requires t in G
  {
    forall path :: PartPath(G, path, true) && path[0] == Unalias(G, t) ==> !HoldsAddress(G[path[|path| - 1]])
  }

  /** Every map within a value of t has an address-free key type. */
  ghost predicate KeysAddressFree(G: Graph, t: TypeId)
    requires GraphOk(G) && t in G
  {
    forall path :: PartPath(G, path, false) && path[0] == Unalias(G, t) ==> MapKeyFree(G, path[|path| - 1])
  }

  ghost predicate MapKeyFree(G: Graph, t: TypeId)
    requires GraphOk(G)
  {
    t in G && G[t].Proper? && !G[t].netip && G[t].under.Map? ==> AddressFree(G, G[t].under.key)
  }

  lemma PathFrom(G: Graph, t: TypeId, path: seq<TypeId>, byValue: bool)
    requires |path| > 0 && Part(G, t, path[0], byValue) && PartPath(G, path, byValue)
    ensures PartPath(G, [t] + path, byValue)
  {
    var longer := [t] + path;
    forall i | 0 < i < |longer| ensures Part(G, longer[i - 1], longer[i], byValue) {
      assert i > 1 ==> longer[i - 1] == path[i - 2] && longer[i] == path[i - 1];
    }
  }

  lemma PartIsAddressFree(G: Graph, t: TypeId, c: TypeId)
    requires GraphOk(G) && t in G && c in G && G[c].Proper? && AddressFree(G, t) && Part(G, Unalias(G, t), c, true)
    ensures AddressFree(G, c)
  {
    forall path | PartPath(G, path, true) && path[0] == c ensures !HoldsAddress(G[path[|path| - 1]]) {
      PathFrom(G, Unalias(G, t), path, true);
      var longer := [Unalias(G, t)] + path;
      assert longer[|longer| - 1] == path[|path| - 1];
    }
  }

  lemma PartKeysAreFree(G: Graph, t: TypeId, c: TypeId)
    requires GraphOk(G) && t in G && c in G && G[c].Proper? && KeysAddressFree(G, t) && Part(G, Unalias(G, t), c, false)
    ensures KeysAddressFree(G, c)
  {
    forall path | PartPath(G, path, false) && path[0] == c ensures MapKeyFree(G, path[|path| - 1]) {
      PathFrom(G, Unalias(G, t), path, false);
      var longer := [Unalias(G, t)] + path;
      assert longer[|longer| - 1] == path[|path| - 1];
    }
  }

  lemma OnlyAddressFree(G: Graph, t: TypeId)
    requires GraphOk(G) && t in G && AddressFree(G, t)
    ensures !HoldsAddress(G[Unalias(G, t)])
  {
    var path := [Unalias(G, t)];
    assert PartPath(G, path, true) && path[|path| - 1] == Unalias(G, t);
  }

  lemma OwnKeysFree(G: Graph, t: TypeId)
    requires GraphOk(G) && t in G && KeysAddressFree(G, t)
    ensures MapKeyFree(G, Unalias(G, t))
  {
    var path := [Unalias(G, t)];
    assert PartPath(G, path, false) && path[|path| - 1] == Unalias(G, t);
  }

  lemma NthPart(G: Graph, t: TypeId, i: nat, byValue: bool)
    requires GraphOk(G) && t in G && G[t].Proper? && i < |Refs(G[t])|
    requires !(G[t].under.Array? && G[t].under.len == 0) && (byValue ==> G[t].under.Array? || G[t].under.Struct?)
    ensures Part(G, t, Unalias(G, Refs(G[t])[i]), byValue)
    ensures Unalias(G, Refs(G[t])[i]) in G && G[Unalias(G, Refs(G[t])[i])].Proper?
  {
  }

  // ---------------------------------------------------------------- address-free keys

  /** For keys without addresses Go's == is equality of structure. */
  lemma {:induction false} IdentityIsStructure(G: Graph, t: TypeId, a: Value, b: Value)
    requires GraphOk(G) && t in G && AddressFree(G, t) && HasType(G, t, a) && HasType(G, t, b)
    ensures KeyIdentity(a) == KeyIdentity(b) <==> Structure(a) == Structure(b)
    decreases a
  {
    var u := Unalias(G, t);
    OnlyAddressFree(G, t);
    if G[u].netip || G[u].under.Basic? {
    } else if G[u].under.Array? {
      if G[u].under.len > 0 {
        NthPart(G, u, 0, true);
        PartIsAddressFree(G, t, Unalias(G, Refs(G[u])[0]));
        hide AddressFree;
        forall i | 0 <= i < |a.elems| ensures KeyIdentity(a.elems[i]) == KeyIdentity(b.elems[i]) <==> Structure(a.elems[i]) == Structure(b.elems[i]) {
          HasTypeUnalias(G, Refs(G[u])[0], a.elems[i]);
          HasTypeUnalias(G, Refs(G[u])[0], b.elems[i]);
          IdentityIsStructure(G, Unalias(G, Refs(G[u])[0]), a.elems[i], b.elems[i]);
        }
      }
      ArrayByElements(a, b);
    } else {
      var fields := G[u].under.fields;
      forall n | n in a.parts ensures KeyIdentity(a.parts[n]) == KeyIdentity(b.parts[n]) <==> Structure(a.parts[n]) == Structure(b.parts[n]) {
        var i :| 0 <= i < |fields| && fields[i].name == n;
        NthPart(G, u, i, true);
        PartIsAddressFree(G, t, Unalias(G, Refs(G[u])[i]));
        FieldTyped(G, u, i, a);
        FieldTyped(G, u, i, b);
        IdentityIsStructure(G, Unalias(G, Refs(G[u])[i]), a.parts[n], b.parts[n]);
      }
      StructByParts(a, b);
    }
  }

  lemma ArrayByElements(a: Value, b: Value)
    requires a.ArrayOf? && b.ArrayOf? && |a.elems| == |b.elems|
    ensures KeyIdentity(a) == KeyIdentity(b) <==> forall i :: 0 <= i < |a.elems| ==> KeyIdentity(a.elems[i]) == KeyIdentity(b.elems[i])
    ensures forall k :: Erased(a, k) == Erased(b, k) <==> forall i :: 0 <= i < |a.elems| ==> Erased(a.elems[i], k) == Erased(b.elems[i], k)
  {
    var s, t := KeyIdentity(a).elems, KeyIdentity(b).elems;
    assert |s| == |a.elems| && |t| == |b.elems|;
    assert forall i :: 0 <= i < |s| ==> s[i] == KeyIdentity(a.elems[i]) && t[i] == KeyIdentity(b.elems[i]);
    if forall i :: 0 <= i < |s| ==> s[i] == t[i] {
      assert s == t;
    }
    forall k ensures Erased(a, k) == Erased(b, k) <==> forall i :: 0 <= i < |a.elems| ==> Erased(a.elems[i], k) == Erased(b.elems[i], k) {
      SequenceByItems(a.elems, b.elems, k);
    }
  }

  lemma SequenceByItems(x: seq<Value>, y: seq<Value>, k: bool)
    requires |x| == |y|
    ensures
      seq(|x|, i requires 0 <= i < |x| => Erased(x[i], k)) == seq(|y|, i requires 0 <= i < |y| => Erased(y[i], k)) <==>
      forall i :: 0 <= i < |x| ==> Erased(x[i], k) == Erased(y[i], k)
  {
    var s, t := seq(|x|, i requires 0 <= i < |x| => Erased(x[i], k)), seq(|y|, i requires 0 <= i < |y| => Erased(y[i], k));
    assert forall i :: 0 <= i < |x| ==> s[i] == Erased(x[i], k) && t[i] == Erased(y[i], k);
    if forall i :: 0 <= i < |x| ==> Erased(x[i], k) == Erased(y[i], k) {
      assert s == t;
    }
  }

  lemma StructByParts(a: Value, b: Value)
    requires a.StructOf? && b.StructOf? && a.parts.Keys == b.parts.Keys
    ensures KeyIdentity(a) == KeyIdentity(b) <==> forall n :: n in a.parts ==> KeyIdentity(a.parts[n]) == KeyIdentity(b.parts[n])
    ensures forall k :: Erased(a, k) == Erased(b, k) <==> forall n :: n in a.parts ==> Erased(a.parts[n], k) == Erased(b.parts[n], k)
  {
    hide Erased, KeyIdentity;
    IdentityByParts(a, b);
    forall k ensures Erased(a, k) == Erased(b, k) <==> forall n :: n in a.parts ==> Erased(a.parts[n], k) == Erased(b.parts[n], k) {
      ErasedByParts(a, b, k);
    }
  }

  lemma IdentityByParts(a: Value, b: Value)
    requires a.StructOf? && b.StructOf? && a.parts.Keys == b.parts.Keys
    ensures KeyIdentity(a) == KeyIdentity(b) <==> forall n :: n in a.parts ==> KeyIdentity(a.parts[n]) == KeyIdentity(b.parts[n])
  {
    PartIdentities(a);
    PartIdentities(b);
    hide KeyIdentity;
    if forall n :: n in a.parts ==> KeyIdentity(a.parts[n]) == KeyIdentity(b.parts[n]) {
      SameMap(KeyIdentity(a).parts, KeyIdentity(b).parts);
    }
  }

  lemma ErasedByParts(a: Value, b: Value, k: bool)
    requires a.StructOf? && b.StructOf? && a.parts.Keys == b.parts.Keys
    ensures Erased(a, k) == Erased(b, k) <==> forall n :: n in a.parts ==> Erased(a.parts[n], k) == Erased(b.parts[n], k)
  {
    PartTrees(a, k);
    PartTrees(b, k);
    hide Erased;
    if forall n :: n in a.parts ==> Erased(a.parts[n], k) == Erased(b.parts[n], k) {
      SameMap(Erased(a, k).columns, Erased(b, k).columns);
    }
  }

  lemma PartIdentities(v: Value)
    requires v.StructOf?
    ensures KeyIdentity(v).Parts? && KeyIdentity(v).parts.Keys == v.parts.Keys
    ensures forall n :: n in v.parts ==> KeyIdentity(v).parts[n] == KeyIdentity(v.parts[n])
  {
  }

  lemma PartTrees(v: Value, k: bool)
    requires v.StructOf?
    ensures Erased(v, k).Record? && Erased(v, k).columns.Keys == v.parts.Keys
    ensures forall n :: n in v.parts ==> Erased(v, k).columns[n] == Erased(v.parts[n], k)
  {
  }

  // ---------------------------------------------------------------- whole values

  ghost predicate Agree(a: Value, b: Value) {
    Compared(a) == Compared(b) <==> Structure(a) == Structure(b)
  }

  lemma BagOf(v: Value)
    requires v.MapOf?
    ensures Structure(v) == Bag(Tally(Rows(v))) && Tally(Rows(v)).Keys == Rows(v).Values
    ensures Rows(v).Keys == v.entries.Keys
    ensures forall id :: id in v.entries ==> Rows(v)[id] == (Structure(v.entries[id].key), Structure(v.entries[id].elem))
  {
  }

  lemma TableOf(v: Value)
    requires v.MapOf?
    ensures Compared(v).Table? && Compared(v).byIdentity.Keys == v.entries.Keys
    ensures forall id :: id in v.entries ==> Compared(v).byIdentity[id] == Compared(v.entries[id].elem)
  {
  }

  lemma TablesAgree(a: Value, b: Value)
    requires a.MapOf? && b.MapOf?
    ensures Compared(a) == Compared(b) <==>
      && a.entries.Keys == b.entries.Keys
      && forall id :: id in a.entries ==> Compared(a.entries[id].elem) == Compared(b.entries[id].elem)
  {
    TableOf(a);
    TableOf(b);
    hide Structure, Compared;
    if a.entries.Keys == b.entries.Keys && forall id :: id in a.entries ==> Compared(a.entries[id].elem) == Compared(b.entries[id].elem) {
      SameMap(Compared(a).byIdentity, Compared(b).byIdentity);
    }
  }

  ghost predicate SameEntries(a: Value, b: Value)
    requires a.MapOf? && b.MapOf?
  {
    && a.entries.Keys == b.entries.Keys
    && forall id :: id in a.entries ==> Structure(a.entries[id].elem) == Structure(b.entries[id].elem)
  }

  /** Keys have the same identity exactly when they have the same structure. */
  ghost predicate SameKeys(a: Value, b: Value)
    requires a.MapOf? && b.MapOf?
  {
    forall i, j :: i in a.entries && j in b.entries ==> (i == j <==> Structure(a.entries[i].key) == Structure(b.entries[j].key))
  }

  lemma BagsAgree(a: Value, b: Value)
    requires a.MapOf? && b.MapOf? && SameKeys(a, b)
    ensures Structure(a) == Structure(b) <==> SameEntries(a, b)
  {
    hide Structure, SameKeys, SameEntries;
    if Structure(a) == Structure(b) {
      SameBag(a, b);
    }
    if SameEntries(a, b) {
      SameRowsSameBag(a, b);
    }
  }

  lemma SameRowsSameBag(a: Value, b: Value)
    requires a.MapOf? && b.MapOf? && SameKeys(a, b) && SameEntries(a, b)
    ensures Structure(a) == Structure(b)
  {
    var x, y := Rows(a), Rows(b);
    BagOf(a);
    BagOf(b);
    hide Structure, Rows, Tally;
    assert forall id :: id in a.entries ==> Structure(a.entries[id].key) == Structure(b.entries[id].key);
    hide SameKeys;
    SameMap(x, y);
  }

  lemma SameBag(a: Value, b: Value)
    requires a.MapOf? && b.MapOf? && SameKeys(a, b) && Structure(a) == Structure(b)
    ensures SameEntries(a, b)
  {
    var x, y := Rows(a), Rows(b);
    BagOf(a);
    BagOf(b);
    hide Structure, Rows, Tally;
    assert x.Values == y.Values;
    assert forall i, j :: i in x && j in y ==> (i == j <==> x[i].0 == y[j].0);
    RowsDetermine(x, y);
    assert a.entries.Keys == x.Keys == b.entries.Keys;
    forall id | id in a.entries ensures Structure(a.entries[id].elem) == Structure(b.entries[id].elem) {
      assert x[id].1 == y[id].1;
    }
  }

  lemma MapsAgree(a: Value, b: Value)
    requires a.MapOf? && b.MapOf? && SameKeys(a, b)
    requires forall i :: i in a.entries && i in b.entries ==> Agree(a.entries[i].elem, b.entries[i].elem)
    ensures Agree(a, b)
  {
    BagsAgree(a, b);
    TablesAgree(a, b);
    hide Structure, Compared;
  }

  lemma RowsDetermine(x: map<Key, (Tree, Tree)>, y: map<Key, (Tree, Tree)>)
    requires forall i, j :: i in x && j in y ==> (i == j <==> x[i].0 == y[j].0)
    requires x.Values == y.Values
    ensures x == y
  {
    forall i | i in x ensures i in y && y[i] == x[i] {
      assert x[i] in y.Values;
      var j :| j in y && y[j] == x[i];
    }
    forall j | j in y ensures j in x {
      assert y[j] in x.Values;
      var i :| i in x && x[i] == y[j];
    }
  }

  lemma PathOnward(G: Graph, t: TypeId, path: seq<TypeId>)
    requires |path| > 0 && Edge(G, t, path[0]) && IsPath(G, path)
    ensures IsPath(G, [t] + path)
  {
    hide Edge;
    var longer := [t] + path;
    forall i | 0 < i < |longer| ensures Edge(G, longer[i - 1], longer[i]) {
      assert longer[i] == path[i - 1];
      assert i > 1 ==> longer[i - 1] == path[i - 2];
    }
  }

  lemma ReviewedPart(G: Graph, t: TypeId, c: TypeId)
    requires GraphOk(G) && t in G && c in G && G[c].Proper? && Reviewed(G, t) && Edge(G, Unalias(G, t), c)
    ensures Reviewed(G, c)
  {
    hide Edge, Unreviewed;
    forall x | x in G && Reachable(G, c, x) ensures !Unreviewed(G[x]) {
      var path :| IsPath(G, path) && path[0] == Unalias(G, c) && path[|path| - 1] == x;
      PathOnward(G, Unalias(G, t), path);
      var longer := [Unalias(G, t)] + path;
      assert longer[|longer| - 1] == x;
      assert Reachable(G, t, x);
    }
  }

  ghost predicate Settled(G: Graph, t: TypeId) {
    GraphOk(G) && t in G && G[t].Proper? && Reviewed(G, t) && KeysAddressFree(G, t)
  }

  /** On values of a type whose map keys hold no address, what the emitted code decides is equality
      of structure. */
  lemma {:induction false} ComparedIsStructure(G: Graph, t: TypeId, a: Value, b: Value)
    requires Settled(G, t) && HasType(G, t, a) && HasType(G, t, b)
    ensures Agree(a, b)
    decreases a, 3
  {
    assert !Unreviewed(G[t]) by {
      ReachRoot(G, t);
    }
    hide Reviewed, KeysAddressFree, GraphOk;
    var T := G[t];
    if T.netip || T.under.Basic? {
    } else if T.under.Pointer? {
      if a.Ptr? && b.Ptr? {
        hide HasType;
        ComponentAgrees(G, t, 0, a.pointee, b.pointee, a);
      }
    } else if T.under.Slice? {
      SlicesAgree(G, t, a, b);
    } else if T.under.Array? {
      ArraysAgree(G, t, a, b);
    } else if T.under.Map? {
      TypedMapsAgree(G, t, a, b);
    } else {
      StructsAgree(G, t, a, b);
    }
  }

  lemma {:induction false} ComponentAgrees(G: Graph, t: TypeId, i: nat, x: Value, y: Value, a: Value)
    requires Settled(G, t) && i < |Refs(G[t])| && !(G[t].under.Array? && G[t].under.len == 0)
    requires HasType(G, Refs(G[t])[i], x) && HasType(G, Refs(G[t])[i], y) && x < a
    ensures Agree(x, y)
    decreases a, 0
  {
    hide HasType, Agree, Reviewed, KeysAddressFree;
    var c := Unalias(G, Refs(G[t])[i]);
    NthPart(G, t, i, false);
    PartKeysAreFree(G, t, c);
    ReviewedPart(G, t, c);
    HasTypeUnalias(G, Refs(G[t])[i], x);
    HasTypeUnalias(G, Refs(G[t])[i], y);
    ComparedIsStructure(G, c, x, y);
  }

  lemma {:induction false} ItemsAgree(G: Graph, t: TypeId, x: seq<Value>, y: seq<Value>, a: Value)
    requires Settled(G, t) && |Refs(G[t])| > 0 && !(G[t].under.Array? && G[t].under.len == 0) && |x| == |y|
    requires forall i :: 0 <= i < |x| ==> HasType(G, Refs(G[t])[0], x[i]) && x[i] < a
    requires forall i :: 0 <= i < |y| ==> HasType(G, Refs(G[t])[0], y[i])
    ensures forall i :: 0 <= i < |x| ==> Agree(x[i], y[i])
    decreases a, 1
  {
    hide Settled, HasType, Agree;
    forall i | 0 <= i < |x| ensures Agree(x[i], y[i]) {
      ComponentAgrees(G, t, 0, x[i], y[i], a);
    }
  }

  lemma {:induction false} SlicesAgree(G: Graph, t: TypeId, a: Value, b: Value)
    requires Settled(G, t) && !G[t].netip && G[t].under.Slice? && HasType(G, t, a) && HasType(G, t, b)
    ensures Agree(a, b)
    decreases a, 2
  {
    if a.SliceOf? && b.SliceOf? {
      var x, y := a.items, b.items;
      if |x| == |y| {
        ItemsAgree(G, t, x, y, a);
        SequenceByItems(x, y, true);
        SequenceByItems(x, y, false);
      } else {
        assert |Compared(a).trees| == |Structure(a).trees| == |x|;
        assert |Compared(b).trees| == |Structure(b).trees| == |y|;
      }
    }
  }

  lemma ElementsTyped(G: Graph, t: TypeId, v: Value)
    requires GraphOk(G) && t in G && G[t].Proper? && !G[t].netip && G[t].under.Array? && HasType(G, t, v)
    ensures v.ArrayOf? && |v.elems| == G[t].under.len
    ensures forall i :: 0 <= i < |v.elems| ==> HasType(G, Refs(G[t])[0], v.elems[i]) && v.elems[i] < v
  {
  }

  lemma {:induction false} ArraysAgree(G: Graph, t: TypeId, a: Value, b: Value)
    requires Settled(G, t) && !G[t].netip && G[t].under.Array? && HasType(G, t, a) && HasType(G, t, b)
    ensures Agree(a, b)
    decreases a, 2
  {
    ElementsTyped(G, t, a);
    ElementsTyped(G, t, b);
    if G[t].under.len > 0 {
      ItemsAgree(G, t, a.elems, b.elems, a);
    }
    hide Settled, HasType, KeyIdentity, Erased;
    ArrayByElements(a, b);
  }

  lemma FieldNames(G: Graph, t: TypeId, v: Value)
    requires GraphOk(G) && t in G && G[t].Proper? && !G[t].netip && G[t].under.Struct? && HasType(G, t, v)
    ensures v.StructOf? && v.parts.Keys == set i | 0 <= i < |G[t].under.fields| :: G[t].under.fields[i].name
  {
  }

  lemma {:induction false} StructsAgree(G: Graph, t: TypeId, a: Value, b: Value)
    requires Settled(G, t) && !G[t].netip && G[t].under.Struct? && HasType(G, t, a) && HasType(G, t, b)
    ensures Agree(a, b)
    decreases a, 2
  {
    var fields := G[t].under.fields;
    var x, y := a.parts, b.parts;
    FieldNames(G, t, a);
    FieldNames(G, t, b);
    forall n | n in x ensures Agree(x[n], y[n]) {
      var i :| 0 <= i < |fields| && fields[i].name == n;
      hide HasType, Agree, Reviewed, KeysAddressFree, Erased;
      FieldTyped(G, t, i, a);
      FieldTyped(G, t, i, b);
      HasTypeUnalias(G, Refs(G[t])[i], x[n]);
      HasTypeUnalias(G, Refs(G[t])[i], y[n]);
      ComponentAgrees(G, t, i, x[n], y[n], a);
    }
    hide Settled, HasType, KeyIdentity, Erased;
    StructByParts(a, b);
  }

  lemma {:induction false} TypedMapsAgree(G: Graph, t: TypeId, a: Value, b: Value)
    requires Settled(G, t) && !G[t].netip && G[t].under.Map? && HasType(G, t, a) && HasType(G, t, b)
    ensures Agree(a, b)
    decreases a, 2
  {
    if a.MapOf? && b.MapOf? {
      var k := G[t].under.key;
      assert AddressFree(G, k) by {
        OwnKeysFree(G, t);
      }
      assert SameKeys(a, b) by {
        forall i, j | i in a.entries && j in b.entries
          ensures i == j <==> Structure(a.entries[i].key) == Structure(b.entries[j].key)
        {
          hide AddressFree, Settled;
          IdentityIsStructure(G, k, a.entries[i].key, b.entries[j].key);
        }
      }
      forall i | i in a.entries && i in b.entries ensures Agree(a.entries[i].elem, b.entries[i].elem) {
        hide Settled, KeyIdentity, Agree;
        ComponentAgrees(G, t, 0, a.entries[i].elem, b.entries[i].elem, a);
      }
      hide Settled, HasType, KeyIdentity, Agree, SameKeys;
      MapsAgree(a, b);
    }
  }
}
