/** What the generated program does: it decides equality of structure with map keys taken as Go's ==
    sees them, and it is complete. `KeyWitnesses` says when that is equality of structure. */
module GeneratorCorrectness {
  import opened Basics
  import opened TypeGraph
  import opened GoFragment
  import opened EqualityGenerator

  /** The generator's state when the root call has returned: nothing is pending. */
  ghost predicate Finished(G: Graph, root: TypeId, names: map<TypeId, nat>, P: Program) {
    && GraphOk(G)
    && root in G
    && Inv(G, root, names, Guarded(P), P)
    && Pending(names, P) == {}
    && Unalias(G, root) in names
    && names[Unalias(G, root)] == 0
  }

  ghost predicate Reviewed(G: Graph, root: TypeId) {
    forall t :: t in G && Reachable(G, root, t) ==> !Unreviewed(G[t])
  }

  /** main: the root's function is equal0, which equalSpec calls. None is the generator's panic. */
  method Generate(G: Graph, root: TypeId) returns (out: Option<(map<TypeId, nat>, Program)>)
    requires GraphOk(G) && root in G
    ensures out.Some? <==> Reviewed(G, root)
    ensures out.Some? ==> Finished(G, root, out.value.0, out.value.1)
    ensures out.Some? ==> DecidesEquality(G, root, out.value.1)
  {
    var g := new Generator(G);
    ReachRoot(G, root);
    NothingYet(G, root);
    hide Inv, Reachable, Unreviewed, DecidesEquality;
    var ok, name := g.Equal(root, root);
    if !ok {
      return None;
    }
    NothingPending(G, root, g.names, g.shapes, g.body);
    EverythingReachableIsNamed(G, root, g.names, g.body);
    FinishedDecides(G, root, g.names, g.body);
    return Some((g.names, g.body));
  }

  lemma NothingYet(G: Graph, root: TypeId)
    requires GraphOk(G)
    ensures Inv(G, root, map[], {}, [])
  {
  }

  lemma NothingPending(G: Graph, root: TypeId, names: map<TypeId, nat>, shapes: set<TypeId>, P: Program)
    requires GraphOk(G) && root in G && Inv(G, root, names, shapes, P) && Advance(map[], [], names, P)
    requires Unalias(G, root) in names && names[Unalias(G, root)] == 0
    ensures Finished(G, root, names, P)
  {
    hide Reachable, DeclOk, GraphOk, NamedStruct;
    assert Pending(map[], []) == {};
    assert Inv(G, root, names, Guarded(P), P);
  }

  lemma DefinedHas(P: Program, t: TypeId) returns (i: nat)
    requires t in Defined(P)
    ensures i < |P| && P[i].Func? && P[i].ty == t
  {
    i :| i < |P| && P[i].Func? && P[i].ty == t;
  }

  lemma DeclOf(G: Graph, root: TypeId, names: map<TypeId, nat>, P: Program, t: TypeId) returns (i: nat)
    requires Finished(G, root, names, P) && t in names
    ensures i < |P| && P[i].Func? && P[i].ty == t && DeclOk(G, names, P[i])
  {
    hide DeclOk, Reachable, GraphOk, Defined, Guarded, NamedStruct;
    assert t !in Pending(names, P);
    assert t in names.Keys - Defined(P) || t in Defined(P);
    i := DefinedHas(P, t);
  }

  /** The generated functions are those of the reachable types, and none of those is unreviewed. */
  lemma EverythingReachableIsNamed(G: Graph, root: TypeId, names: map<TypeId, nat>, P: Program)
    requires Finished(G, root, names, P)
    ensures forall t :: t in names <==> t in G && Reachable(G, root, t)
    ensures Reviewed(G, root)
  {
    forall t, c | t in names.Keys && Edge(G, t, c) ensures c in names.Keys {
      var _ := DeclOf(G, root, names, P, t);
    }
    forall t | t in G && Reachable(G, root, t) ensures t in names && !Unreviewed(G[t]) {
      var path :| IsPath(G, path) && path[0] == Unalias(G, root) && path[|path| - 1] == t;
      ClosedSetHoldsReachable(G, names.Keys, path);
      var _ := DeclOf(G, root, names, P, t);
    }
  }

  predicate Calls(s: Stmt, f: nat) {
    (s.ReturnDeref? || s.ForIndexes? || s.ForEntries? || s.IfFieldDiffers?) && s.f == f
  }

  /** Definitions of function number f. */
  ghost function Definitions(P: Program, f: nat): set<nat> {
    set i: nat | i < |P| && P[i].Func? && P[i].name == f
  }

  lemma UniqueDefinition(G: Graph, root: TypeId, names: map<TypeId, nat>, P: Program, t: TypeId)
    requires Finished(G, root, names, P) && t in names
    ensures exists i :: Definitions(P, names[t]) == {i}
  {
    var i := DeclOf(G, root, names, P, t);
    forall j | j in Definitions(P, names[t]) ensures j == i {
      assert P[j].ty == t;
    }
    assert Definitions(P, names[t]) == {i};
  }

  /** The program is closed: every function it defines or calls is defined exactly once, and
      function number 0 is the root's. */
  lemma ProgramIsClosed(G: Graph, root: TypeId, names: map<TypeId, nat>, P: Program)
    requires Finished(G, root, names, P)
    ensures forall d, f :: d in P && d.Func? && (f == d.name || exists s :: s in d.stmts && Calls(s, f)) ==>
      exists i :: Definitions(P, f) == {i}
    ensures exists i: nat :: Definitions(P, 0) == {i} && i < |P| && P[i].ty == Unalias(G, root)
  {
    forall d, f | d in P && d.Func? && (f == d.name || exists s :: s in d.stmts && Calls(s, f))
      ensures exists i :: Definitions(P, f) == {i}
    {
      var t := CalleeType(G, names, d, f);
      UniqueDefinition(G, root, names, P, t);
    }
    UniqueDefinition(G, root, names, P, Unalias(G, root));
    var r := DeclOf(G, root, names, P, Unalias(G, root));
    assert r in Definitions(P, 0);
  }

  ghost function Guards(P: Program, t: TypeId): set<nat> {
    set i: nat | i < |P| && P[i].Guard? && P[i].ty == t
  }

  lemma GuardOf(G: Graph, root: TypeId, names: map<TypeId, nat>, P: Program, t: TypeId) returns (g: nat)
    requires GraphOk(G) && Inv(G, root, names, Guarded(P), P) && t in Guarded(P)
    ensures g < |P| && P[g].Guard? && P[g].ty == t && DeclOk(G, names, P[g])
    ensures Guards(P, t) == {g}
  {
    hide DeclOk, Reachable, GraphOk, Defined, NamedStruct;
    g :| g < |P| && P[g].Guard? && P[g].ty == t;
    forall i | i in Guards(P, t) ensures i == g {
      assert P[i].ty == P[g].ty && P[i].Func? == P[g].Func?;
    }
    assert Guards(P, t) == {g};
  }

  /** The anonymous struct of a guard converts from a struct with these fields: as many fields, each
      of the same type and tag, named the same unless embedded. */
  ghost predicate Pins(mirror: seq<Mirror>, fields: seq<Field>) {
    && |mirror| == |fields|
    && forall i :: 0 <= i < |fields| ==>
      && mirror[i].ty == fields[i].ty
      && mirror[i].tag == fields[i].tag
      && (mirror[i].name.None? <==> fields[i].embedded)
      && (mirror[i].name.Some? ==> mirror[i].name.value == fields[i].name)
  }

  /** The guards of t: exactly one, and it pins these fields. */
  ghost predicate PinnedOnce(P: Program, t: TypeId, fields: seq<Field>) {
    exists g: nat :: Guards(P, t) == {g} && g < |P| && Pins(P[g].mirror, fields)
  }

  /** Every named struct outside net/netip that the program compares is pinned by exactly one guard
      listing its fields in order; every other type has none: one the walk never visits, such as a
      struct that occurs only as a map key, and those of net/netip, which are compared whole. */
  lemma StructsAreGuarded(G: Graph, root: TypeId, names: map<TypeId, nat>, P: Program, t: TypeId)
    requires Finished(G, root, names, P) && t in G
    ensures Reachable(G, root, t) && G[t].Proper? && G[t].named && !G[t].netip && G[t].under.Struct? ==>
      PinnedOnce(P, t, G[t].under.fields)
    ensures !(Reachable(G, root, t) && G[t].Proper? && G[t].named && !G[t].netip && G[t].under.Struct?) ==>
      Guards(P, t) == {}
  {
    EverythingReachableIsNamed(G, root, names, P);
    forall g | g in Guards(P, t) ensures t in names && NamedStruct(G[t]) {
      assert DeclOk(G, names, P[g]);
    }
    if Reachable(G, root, t) && NamedStruct(G[t]) {
      var i := DeclOf(G, root, names, P, t);
      assert t in Defined(P);
      hide Reachable, Defined, Guarded, GraphOk;
      var g := GuardOf(G, root, names, P, t);
      MirrorPins(G[t].under.fields);
      assert Pins(P[g].mirror, G[t].under.fields);
    }
  }

  lemma MirrorPins(fields: seq<Field>)
    ensures Pins(MirrorOf(fields), fields)
  {
  }

  /** The fields as a schema change can alter them; an embedded field goes by its type alone. */
  ghost predicate SameSchema(fields: seq<Field>, fields': seq<Field>) {
    && |fields| == |fields'|
    && forall i :: 0 <= i < |fields| ==>
      && fields[i].ty == fields'[i].ty && fields[i].tag == fields'[i].tag && fields[i].embedded == fields'[i].embedded
      && (!fields[i].embedded ==> fields[i].name == fields'[i].name)
  }

  /** Schema changes show: if one guard pins a struct both before and after a change, then no field was
      added, dropped, reordered, retyped, retagged or renamed. */
  lemma GuardsShowSchemaChanges(
      G: Graph, root: TypeId, names: map<TypeId, nat>, P: Program,
      G': Graph, names': map<TypeId, nat>, P': Program, t: TypeId)
    requires Finished(G, root, names, P) && Finished(G', root, names', P')
    requires t in G && Reachable(G, root, t) && G[t].Proper? && G[t].named && !G[t].netip && G[t].under.Struct?
    requires t in G' && Reachable(G', root, t) && G'[t].Proper? && G'[t].named && !G'[t].netip && G'[t].under.Struct?
    ensures (exists g, g' :: g in Guards(P, t) && g' in Guards(P', t) && P[g].mirror == P'[g'].mirror) <==>
      SameSchema(G[t].under.fields, G'[t].under.fields)
  {
    hide Finished, Reachable, Pins, SameSchema, GraphOk;
    StructsAreGuarded(G, root, names, P, t);
    StructsAreGuarded(G', root, names', P', t);
    var g: nat :| Guards(P, t) == {g} && g < |P| && Pins(P[g].mirror, G[t].under.fields);
    var g': nat :| Guards(P', t) == {g'} && g' < |P'| && Pins(P'[g'].mirror, G'[t].under.fields);
    assert g in Guards(P, t) && g' in Guards(P', t);
    SamePins(P[g].mirror, G[t].under.fields, P'[g'].mirror, G'[t].under.fields);
  }

  lemma SamePins(m: seq<Mirror>, fields: seq<Field>, m': seq<Mirror>, fields': seq<Field>)
    requires Pins(m, fields) && Pins(m', fields')
    ensures m == m' <==> SameSchema(fields, fields')
  {
    if SameSchema(fields, fields') {
      assert forall i :: 0 <= i < |m| ==> m[i] == m'[i];
    }
  }

  /** What the generator accepts, kind by kind. */
  lemma ReviewedByKind(G: Graph, root: TypeId)
    requires GraphOk(G)
    ensures Reviewed(G, root) <==> forall t :: t in G && Reachable(G, root, t) && G[t].Proper? && !G[t].netip ==>
      match G[t].under
      case Basic => true
      case Pointer(_) => true
      case Slice(_) => true
      case Map(_, _) => true
      case Array(_, _) => true
      case Struct(fields) => forall f :: f in fields ==> f.exported
      case Interface => false
      case Chan => false
      case Signature => false
  {
    hide Reachable;
  }

  lemma CalleeType(G: Graph, names: map<TypeId, nat>, d: Decl, f: nat) returns (t: TypeId)
    requires GraphOk(G) && d.Func? && DeclOk(G, names, d) && (f == d.name || exists s :: s in d.stmts && Calls(s, f))
    ensures t in names && names[t] == f
  {
    if f == d.name {
      t := d.ty;
    } else {
      var i :| 0 <= i < |d.stmts| && Calls(d.stmts[i], f);
      if !G[d.ty].netip && G[d.ty].under.Struct? {
        t := Unalias(G, Refs(G[d.ty])[i]);
      } else {
        t := Unalias(G, Refs(G[d.ty])[0]);
      }
    }
  }

  // ---------------------------------------------------------------- running it

  lemma {:induction false} LookupFinds(P: Program, i: nat)
    requires i < |P| && P[i].Func?
    requires forall j, k :: 0 <= j < k < |P| && P[j].Func? && P[k].Func? ==> P[j].name != P[k].name
    ensures Lookup(P, P[i].name) == Some(P[i].stmts)
  {
    if i > 0 {
      LookupFinds(P[1..], i - 1);
    }
  }

  /** The code found under a type's name is that type's template. */
  lemma LookupTemplate(G: Graph, root: TypeId, names: map<TypeId, nat>, P: Program, t: TypeId)
    requires Finished(G, root, names, P) && t in names
    ensures Named(G, names, t) && !Unreviewed(G[t])
    ensures Lookup(P, names[t]) == Some(Template(G, names, t))
  {
    var i := DeclOf(G, root, names, P, t);
    forall j, k | 0 <= j < k < |P| && P[j].Func? && P[k].Func? ensures P[j].name != P[k].name {
      assert DeclOk(G, names, P[j]) && DeclOk(G, names, P[k]);
    }
    LookupFinds(P, i);
  }

  /** The finished program, as far as running it is concerned: under the name of every type is that
      type's template. */
  ghost predicate Emits(G: Graph, names: map<TypeId, nat>, P: Program) {
    && GraphOk(G)
    && forall t :: t in names ==>
      Named(G, names, t) && !Unreviewed(G[t]) && Lookup(P, names[t]) == Some(Template(G, names, t))
  }

  lemma FinishedEmits(G: Graph, root: TypeId, names: map<TypeId, nat>, P: Program)
    requires Finished(G, root, names, P)
    ensures Emits(G, names, P)
  {
    forall t | t in names
      ensures Named(G, names, t) && !Unreviewed(G[t]) && Lookup(P, names[t]) == Some(Template(G, names, t))
    {
      LookupTemplate(G, root, names, P, t);
    }
  }

  lemma EmitsTemplate(G: Graph, names: map<TypeId, nat>, P: Program, t: TypeId)
    requires Emits(G, names, P) && t in names
    ensures GraphOk(G) && Named(G, names, t) && !Unreviewed(G[t])
    ensures Lookup(P, names[t]) == Some(Template(G, names, t))
  {
  }

  lemma HasTypeUnalias(G: Graph, t: TypeId, v: Value)
    requires GraphOk(G) && t in G
    ensures HasType(G, Unalias(G, t), v) == HasType(G, t, v)
  {
  }

  lemma SameItems(a: Value, b: Value)
    requires (a.SliceOf? && b.SliceOf?) || (a.ArrayOf? && b.ArrayOf?)
    requires |Items(a).value| == |Items(b).value|
    ensures Compared(a) == Compared(b) <==>
            forall j :: 0 <= j < |Items(a).value| ==> Compared(Items(a).value[j]) == Compared(Items(b).value[j])
  {
    var x, y := Items(a).value, Items(b).value;
    var s, t := Compared(a).trees, Compared(b).trees;
    assert |s| == |x| && |t| == |y|;
    assert forall j :: 0 <= j < |x| ==> s[j] == Compared(x[j]) && t[j] == Compared(y[j]);
    if forall j :: 0 <= j < |x| ==> Compared(x[j]) == Compared(y[j]) {
      assert s == t;
    }
  }

  lemma SameRows(a: Value, b: Value)
    requires a.MapOf? && b.MapOf? && |a.entries| == |b.entries|
    ensures Compared(a) == Compared(b) <==>
            forall k :: k in a.entries ==> k in b.entries && Compared(a.entries[k].elem) == Compared(b.entries[k].elem)
  {
    var s, t := Compared(a).byIdentity, Compared(b).byIdentity;
    assert s.Keys == a.entries.Keys && t.Keys == b.entries.Keys;
    assert forall k :: k in a.entries ==> s[k] == Compared(a.entries[k].elem);
    assert forall k :: k in b.entries ==> t[k] == Compared(b.entries[k].elem);
    if forall k :: k in a.entries ==> k in b.entries && Compared(a.entries[k].elem) == Compared(b.entries[k].elem) {
      SameSizeSubset(a.entries.Keys, b.entries.Keys);
      assert s == t;
    }
  }

  lemma Columns(v: Value)
    requires v.StructOf?
    ensures Compared(v).Record? && Compared(v).columns.Keys == v.parts.Keys
    ensures forall n :: n in v.parts ==> Compared(v).columns[n] == Compared(v.parts[n])
  {
  }

  lemma SameColumns(a: Value, b: Value)
    requires a.StructOf? && b.StructOf? && a.parts.Keys == b.parts.Keys
    ensures Compared(a) == Compared(b) <==> forall n :: n in a.parts ==> SameField(a, b, n)
  {
    Columns(a);
    Columns(b);
    hide Compared;
    if forall n :: n in a.parts ==> SameField(a, b, n) {
      assert Compared(a).columns == Compared(b).columns;
    }
  }

  lemma SameSizeSubset<T>(A: set<T>, B: set<T>)
    requires A <= B && |A| == |B|
    ensures A == B
  {
    assert A + (B - A) == B;
  }

  /** Compiler correctness: for every type the generator accepted, the emitted function terminates
      on every two values of the type and returns whether they have the same structure up to map
      keys, which count by identity, whatever the iteration order of maps. */
  lemma {:induction false} CallDecidesEquality(
      G: Graph, names: map<TypeId, nat>, m: Machine, t: TypeId, a: Value, b: Value)
    requires Emits(G, names, m.prog) && Fair(m.order)
    requires t in names && t in G && HasType(G, t, a) && HasType(G, t, b)
    ensures Call(m, names[t], a, b) == Some(Compared(a) == Compared(b))
    decreases a, 2
  {
    hide Emits;
    EmitsTemplate(G, names, m.prog, t);
    var body := Template(G, names, t);
    if G[t].netip || G[t].under.Basic? {
    } else {
      match G[t].under {
        case Pointer(_) =>
          PointerDecides(G, names, m, t, a, b);
        case Slice(_) =>
          SliceDecides(G, names, m, t, a, b);
        case Map(_, _) =>
          MapDecides(G, names, m, t, a, b);
        case Array(_, _) =>
          ArrayDecides(G, names, m, t, a, b);
        case Struct(_) =>
          StructDecides(G, names, m, t, a, b);
      }
    }
  }

  /** Everything known of a type whose function is being run. */
  ghost predicate Running(G: Graph, names: map<TypeId, nat>, m: Machine, t: TypeId) {
    && GraphOk(G)
    && Emits(G, names, m.prog)
    && Fair(m.order)
    && t in names
    && Named(G, names, t)
    && Lookup(m.prog, names[t]) == Some(Template(G, names, t))
  }

  // What each loop-free or looping body computes, step by step.

  lemma RunPointer(m: Machine, name: nat, f: nat, a: Value, b: Value)
    requires Lookup(m.prog, name) == Some([IfNilReturnIdentical, ReturnDeref(f)])
    requires (a.NilPtr? || a.Ptr?) && (b.NilPtr? || b.Ptr?)
    ensures Call(m, name, a, b) ==
            if a.Ptr? && b.Ptr? then Call(m, f, a.pointee, b.pointee) else Some(a.NilPtr? && b.NilPtr?)
  {
    var body := [IfNilReturnIdentical, ReturnDeref(f)];
    assert body[1..] == [ReturnDeref(f)];
    assert Call(m, name, a, b) == Exec(m, body, a, b);
    if a.Ptr? && b.Ptr? {
      assert Exec(m, body, a, b) == Exec(m, [ReturnDeref(f)], a, b);
    }
  }

  lemma RunArray(m: Machine, name: nat, f: nat, a: Value, b: Value)
    requires Lookup(m.prog, name) == Some([ForIndexes(f), ReturnTrue])
    requires a.ArrayOf? && b.ArrayOf?
    ensures Call(m, name, a, b) == EveryIndex(m, f, a, b, 0)
  {
    var loop := [ForIndexes(f), ReturnTrue];
    assert loop[1..] == [ReturnTrue];
    assert Call(m, name, a, b) == Exec(m, loop, a, b);
    assert Exec(m, [ReturnTrue], a, b) == Some(true);
  }

  lemma RunSlice(m: Machine, name: nat, f: nat, a: Value, b: Value)
    requires Lookup(m.prog, name) == Some([IfShapeDiffers, ForIndexes(f), ReturnTrue])
    requires (a.NilSlice? || a.SliceOf?) && (b.NilSlice? || b.SliceOf?)
    ensures Call(m, name, a, b) ==
            if ShapeDiffers(a, b).value then Some(false) else EveryIndex(m, f, a, b, 0)
  {
    var loop := [ForIndexes(f), ReturnTrue];
    var body := [IfShapeDiffers] + loop;
    assert body == [IfShapeDiffers, ForIndexes(f), ReturnTrue] && body[1..] == loop && loop[1..] == [ReturnTrue];
    assert Call(m, name, a, b) == Exec(m, body, a, b);
    if !ShapeDiffers(a, b).value {
      assert Exec(m, body, a, b) == Exec(m, loop, a, b);
      assert Exec(m, [ReturnTrue], a, b) == Some(true);
    }
  }

  lemma RunMap(m: Machine, name: nat, f: nat, a: Value, b: Value)
    requires Lookup(m.prog, name) == Some([IfShapeDiffers, ForEntries(f), ReturnTrue])
    requires (a.NilMap? || a.MapOf?) && (b.NilMap? || b.MapOf?)
    ensures Call(m, name, a, b) ==
            if ShapeDiffers(a, b).value then Some(false)
            else EveryEntry(m, f, a, b, if a.MapOf? then m.order(a, b) else [])
  {
    var loop := [ForEntries(f), ReturnTrue];
    var body := [IfShapeDiffers] + loop;
    assert body == [IfShapeDiffers, ForEntries(f), ReturnTrue] && body[1..] == loop && loop[1..] == [ReturnTrue];
    assert Call(m, name, a, b) == Exec(m, body, a, b);
    if !ShapeDiffers(a, b).value {
      assert Exec(m, body, a, b) == Exec(m, loop, a, b);
      assert Exec(m, [ReturnTrue], a, b) == Some(true);
    }
  }

  lemma NothingToLoopOver(m: Machine, f: nat, a: Value, b: Value)
    ensures Items(a) == Some([]) && Items(b).Some? ==> EveryIndex(m, f, a, b, 0) == Some(true)
    ensures Entries(a).Some? && Entries(b).Some? ==> EveryEntry(m, f, a, b, []) == Some(true)
  {
  }

  lemma {:induction false} PointerDecides(
      G: Graph, names: map<TypeId, nat>, m: Machine, t: TypeId, a: Value, b: Value)
    requires GraphOk(G) && Running(G, names, m, t) && !G[t].netip && G[t].under.Pointer?
    requires HasType(G, t, a) && HasType(G, t, b)
    ensures Call(m, names[t], a, b) == Some(Compared(a) == Compared(b))
    decreases a, 1
  {
    hide Emits, Call, Exec, Lookup, Fair, EveryIndex, EveryEntry, Unreviewed;
    var e := Refs(G[t])[0];
    var f := names[Unalias(G, e)];
    RunPointer(m, names[t], f, a, b);
    if a.Ptr? && b.Ptr? {
      HasTypeUnalias(G, e, a.pointee);
      HasTypeUnalias(G, e, b.pointee);
      CallDecidesEquality(G, names, m, Unalias(G, e), a.pointee, b.pointee);
    }
  }

  lemma {:induction false} SliceDecides(
      G: Graph, names: map<TypeId, nat>, m: Machine, t: TypeId, a: Value, b: Value)
    requires GraphOk(G) && Running(G, names, m, t) && !G[t].netip && G[t].under.Slice?
    requires HasType(G, t, a) && HasType(G, t, b)
    ensures Call(m, names[t], a, b) == Some(Compared(a) == Compared(b))
    decreases a, 1
  {
    hide Emits, Call, Exec, Lookup, Fair, EveryIndex, EveryEntry, Unreviewed;
    var e := Refs(G[t])[0];
    var f := names[Unalias(G, e)];
    RunSlice(m, names[t], f, a, b);
    if a.SliceOf? && b.SliceOf? {
      if |a.items| == |b.items| {
        IndexesDecide(G, names, m, e, a, b, 0);
        SameItems(a, b);
      } else {
        assert |Compared(a).trees| != |Compared(b).trees|;
      }
    } else {
      NothingToLoopOver(m, f, a, b);
    }
  }

  lemma {:induction false} ArrayDecides(
      G: Graph, names: map<TypeId, nat>, m: Machine, t: TypeId, a: Value, b: Value)
    requires GraphOk(G) && Running(G, names, m, t) && !G[t].netip && G[t].under.Array?
    requires HasType(G, t, a) && HasType(G, t, b)
    ensures Call(m, names[t], a, b) == Some(Compared(a) == Compared(b))
    decreases a, 1
  {
    hide Emits, Call, Exec, Lookup, Fair, EveryIndex, EveryEntry, Unreviewed;
    var e := Refs(G[t])[0];
    var f := names[Unalias(G, e)];
    RunArray(m, names[t], f, a, b);
    IndexesDecide(G, names, m, e, a, b, 0);
    SameItems(a, b);
  }

  lemma {:induction false} IndexesDecide(
      G: Graph, names: map<TypeId, nat>, m: Machine, e: TypeId, a: Value, b: Value, i: nat)
    requires GraphOk(G) && Emits(G, names, m.prog) && Fair(m.order) && e in G && Unalias(G, e) in names
    requires Items(a).Some? && Items(b).Some? && i <= |Items(a).value| == |Items(b).value|
    requires forall j :: 0 <= j < |Items(a).value| ==> HasType(G, e, Items(a).value[j]) && HasType(G, e, Items(b).value[j])
    ensures EveryIndex(m, names[Unalias(G, e)], a, b, i) ==
            Some(forall j :: i <= j < |Items(a).value| ==> Compared(Items(a).value[j]) == Compared(Items(b).value[j]))
    decreases a, 0, |Items(a).value| - i
  {
    hide Emits, Fair, HasType;
    if i < |Items(a).value| {
      HasTypeUnalias(G, e, Items(a).value[i]);
      HasTypeUnalias(G, e, Items(b).value[i]);
      CallDecidesEquality(G, names, m, Unalias(G, e), Items(a).value[i], Items(b).value[i]);
      IndexesDecide(G, names, m, e, a, b, i + 1);
    }
  }

  lemma {:induction false} MapDecides(
      G: Graph, names: map<TypeId, nat>, m: Machine, t: TypeId, a: Value, b: Value)
    requires GraphOk(G) && Running(G, names, m, t) && !G[t].netip && G[t].under.Map?
    requires HasType(G, t, a) && HasType(G, t, b)
    ensures Call(m, names[t], a, b) == Some(Compared(a) == Compared(b))
    decreases a, 1
  {
    hide Emits, Call, Exec, Lookup, EveryIndex, EveryEntry, Unreviewed;
    var e := Refs(G[t])[0];
    var f := names[Unalias(G, e)];
    RunMap(m, names[t], f, a, b);
    if a.MapOf? && b.MapOf? {
      if |a.entries| == |b.entries| {
        var keys := m.order(a, b);
        assert Enumerates(keys, a.entries.Keys);
        assert forall k :: k in keys <==> k in a.entries;
        EntriesDecide(G, names, m, e, a, b, keys);
        SameRows(a, b);
      } else {
        assert Compared(a).byIdentity.Keys == a.entries.Keys && Compared(b).byIdentity.Keys == b.entries.Keys;
      }
    } else {
      NothingToLoopOver(m, f, a, b);
    }
  }

  lemma {:induction false} EntriesDecide(
      G: Graph, names: map<TypeId, nat>, m: Machine, e: TypeId, a: Value, b: Value, keys: seq<Key>)
    requires GraphOk(G) && Emits(G, names, m.prog) && Fair(m.order) && e in G && Unalias(G, e) in names
    requires a.MapOf? && b.MapOf? && forall k :: k in keys ==> k in a.entries
    requires forall k :: k in a.entries ==> HasType(G, e, a.entries[k].elem)
    requires forall k :: k in b.entries ==> HasType(G, e, b.entries[k].elem)
    ensures EveryEntry(m, names[Unalias(G, e)], a, b, keys) ==
            Some(forall k :: k in keys ==> k in b.entries && Compared(a.entries[k].elem) == Compared(b.entries[k].elem))
    decreases a, 0, |keys|
  {
    hide Emits, Fair, HasType;
    if keys != [] {
      assert forall k :: k in keys <==> k == keys[0] || k in keys[1..];
      if keys[0] in b.entries {
        HasTypeUnalias(G, e, a.entries[keys[0]].elem);
        HasTypeUnalias(G, e, b.entries[keys[0]].elem);
        CallDecidesEquality(G, names, m, Unalias(G, e), a.entries[keys[0]].elem, b.entries[keys[0]].elem);
      }
      EntriesDecide(G, names, m, e, a, b, keys[1..]);
    }
  }

  lemma {:induction false} StructDecides(
      G: Graph, names: map<TypeId, nat>, m: Machine, t: TypeId, a: Value, b: Value)
    requires GraphOk(G) && Running(G, names, m, t) && !G[t].netip && G[t].under.Struct?
    requires HasType(G, t, a) && HasType(G, t, b)
    ensures Call(m, names[t], a, b) == Some(Compared(a) == Compared(b))
    decreases a, 1
  {
    hide Emits;
    FieldsDecide(G, names, m, t, a, b, 0);
    assert Template(G, names, t)[0..] == Template(G, names, t);
    SameColumns(a, b);
  }

  ghost predicate SameField(a: Value, b: Value, name: string) {
    && a.StructOf? && b.StructOf? && name in a.parts && name in b.parts
    && Compared(a.parts[name]) == Compared(b.parts[name])
  }

  lemma FieldTyped(G: Graph, t: TypeId, i: nat, v: Value)
    requires GraphOk(G) && t in G && G[t].Proper? && !G[t].netip && G[t].under.Struct?
    requires HasType(G, t, v) && i < |G[t].under.fields|
    ensures i < |Refs(G[t])| && v.StructOf? && G[t].under.fields[i].name in v.parts
    ensures HasType(G, Unalias(G, Refs(G[t])[i]), v.parts[G[t].under.fields[i].name])
  {
    assert G[t].under.fields[i].name in v.parts.Keys;
    HasTypeUnalias(G, Refs(G[t])[i], v.parts[G[t].under.fields[i].name]);
  }

  lemma TemplateTail(G: Graph, names: map<TypeId, nat>, t: TypeId, i: nat)
    requires GraphOk(G) && Named(G, names, t) && !G[t].netip && G[t].under.Struct?
    requires i <= |G[t].under.fields|
    ensures i <= |Template(G, names, t)|
    ensures i == |G[t].under.fields| ==> Template(G, names, t)[i..] == [ReturnTrue]
    ensures i < |G[t].under.fields| ==>
      Template(G, names, t)[i..] ==
      [IfFieldDiffers(names[Unalias(G, Refs(G[t])[i])], G[t].under.fields[i].name)] + Template(G, names, t)[i + 1..]
  {
  }

  lemma ExecFieldTest(m: Machine, f: nat, name: string, rest: seq<Stmt>, a: Value, b: Value)
    requires a.StructOf? && b.StructOf? && name in a.parts && name in b.parts
    requires Call(m, f, a.parts[name], b.parts[name]).Some?
    ensures Exec(m, [IfFieldDiffers(f, name)] + rest, a, b) ==
            if Call(m, f, a.parts[name], b.parts[name]).value then Exec(m, rest, a, b) else Some(false)
  {
    assert ([IfFieldDiffers(f, name)] + rest)[1..] == rest;
  }

  lemma {:induction false} FieldsDecide(
      G: Graph, names: map<TypeId, nat>, m: Machine, t: TypeId, a: Value, b: Value, i: nat)
    requires GraphOk(G) && Running(G, names, m, t) && !G[t].netip && G[t].under.Struct?
    requires HasType(G, t, a) && HasType(G, t, b) && i <= |G[t].under.fields|
    ensures i <= |Template(G, names, t)|
    ensures Exec(m, Template(G, names, t)[i..], a, b) ==
            Some(forall j :: i <= j < |G[t].under.fields| ==> SameField(a, b, G[t].under.fields[j].name))
    decreases a, 0, |G[t].under.fields| - i
  {
    hide Emits, Fair, Template, Compared, Lookup, Call, EveryEntry, EveryIndex, HasType;
    var fields := G[t].under.fields;
    TemplateTail(G, names, t, i);
    if i < |fields| {
      var e := Unalias(G, Refs(G[t])[i]);
      var name := fields[i].name;
      FieldTyped(G, t, i, a);
      FieldTyped(G, t, i, b);
      CallDecidesEquality(G, names, m, e, a.parts[name], b.parts[name]);
      ExecFieldTest(m, names[e], name, Template(G, names, t)[i + 1..], a, b);
      FieldsDecide(G, names, m, t, a, b, i + 1);
    }
  }

  /** equalSpec(a, b), whatever the iteration order of maps. */
  ghost predicate DecidesEquality(G: Graph, root: TypeId, P: Program)
    requires GraphOk(G) && root in G
  {
    forall order: (Value, Value) -> seq<Key>, a: Value, b: Value ::
      Fair(order) && HasType(G, root, a) && HasType(G, root, b) ==>
        Call(Machine(P, order), 0, a, b) == Some(Compared(a) == Compared(b))
  }

  lemma FinishedDecides(G: Graph, root: TypeId, names: map<TypeId, nat>, P: Program)
    requires Finished(G, root, names, P)
    ensures DecidesEquality(G, root, P)
  {
    FinishedEmits(G, root, names, P);
    RootIsProper(G, root, names, P);
    forall order: (Value, Value) -> seq<Key>, a: Value, b: Value | Fair(order) && HasType(G, root, a) && HasType(G, root, b)
      ensures Call(Machine(P, order), 0, a, b) == Some(Compared(a) == Compared(b))
    {
      hide Finished, Emits, HasType, Fair, Call;
      HasTypeUnalias(G, root, a);
      HasTypeUnalias(G, root, b);
      CallDecidesEquality(G, names, Machine(P, order), Unalias(G, root), a, b);
    }
  }

  lemma RootIsProper(G: Graph, root: TypeId, names: map<TypeId, nat>, P: Program)
    requires Finished(G, root, names, P)
    ensures Unalias(G, root) in G && Unalias(G, root) in names && names[Unalias(G, root)] == 0
  {
  }

  /** So the emitted equality is an equivalence, and keeps nil apart from empty. */
  lemma EmittedEqualityIsAnEquivalence(
      G: Graph, names: map<TypeId, nat>, m: Machine, t: TypeId, a: Value, b: Value, c: Value)
    requires Emits(G, names, m.prog) && Fair(m.order) && t in names && t in G
    requires HasType(G, t, a) && HasType(G, t, b) && HasType(G, t, c)
    ensures Call(m, names[t], a, a) == Some(true)
    ensures Call(m, names[t], a, b) == Call(m, names[t], b, a)
    ensures Call(m, names[t], a, b) == Some(true) && Call(m, names[t], b, c) == Some(true) ==> Call(m, names[t], a, c) == Some(true)
    ensures (a.NilSlice? && b.SliceOf?) || (a.NilMap? && b.MapOf?) ==> Call(m, names[t], a, b) == Some(false)
  {
    hide Emits, Fair, Call, HasType;
    CallDecidesEquality(G, names, m, t, a, a);
    CallDecidesEquality(G, names, m, t, a, b);
    CallDecidesEquality(G, names, m, t, b, a);
    CallDecidesEquality(G, names, m, t, b, c);
    CallDecidesEquality(G, names, m, t, a, c);
  }
}
