/** The generator of typed equality: a memoised depth-first walk that appends one declaration at a time. */
module EqualityGenerator {
  import opened Basics
  import opened TypeGraph
  import opened GoFragment

  function MirrorOf(fields: seq<Field>): seq<Mirror> {
    seq(|fields|, i requires 0 <= i < |fields| =>
      Mirror(if fields[i].embedded then None else Some(fields[i].name), fields[i].ty, fields[i].tag))
  }

  ghost predicate Named(G: Graph, names: map<TypeId, nat>, t: TypeId)
    requires GraphOk(G)
  {
    && t in G && G[t].Proper? && t in names
    && forall i :: 0 <= i < |Refs(G[t])| ==> Unalias(G, Refs(G[t])[i]) in names
  }

  /** The body equality of type t must have, once t's components have names. */
  ghost function Template(G: Graph, names: map<TypeId, nat>, t: TypeId): seq<Stmt>
    requires GraphOk(G) && Named(G, names, t)
  {
    var callee := i requires 0 <= i < |Refs(G[t])| => names[Unalias(G, Refs(G[t])[i])];
    if G[t].netip then [ReturnIdentical]
    else match G[t].under
      case Basic => [ReturnIdentical]
      case Pointer(_) => [IfNilReturnIdentical, ReturnDeref(callee(0))]
      case Slice(_) => [IfShapeDiffers, ForIndexes(callee(0)), ReturnTrue]
      case Map(_, _) => [IfShapeDiffers, ForEntries(callee(0)), ReturnTrue]
      case Array(_, _) => [ForIndexes(callee(0)), ReturnTrue]
      case Struct(fields) => FieldTests(G, names, t, |fields|) + [ReturnTrue]
      case _ => []
  }

  ghost function FieldTests(G: Graph, names: map<TypeId, nat>, t: TypeId, n: nat): seq<Stmt>
    requires GraphOk(G) && t in G && G[t].Proper? && !G[t].netip && G[t].under.Struct? && n <= |G[t].under.fields|
    requires forall i :: 0 <= i < n ==> Unalias(G, Refs(G[t])[i]) in names
  {
    seq(n, i requires 0 <= i < n => IfFieldDiffers(names[Unalias(G, Refs(G[t])[i])], G[t].under.fields[i].name))
  }

  ghost predicate Extends(names: map<TypeId, nat>, names': map<TypeId, nat>) {
    && names.Keys <= names'.Keys
    && forall t :: t in names ==> names'[t] == names[t]
  }

  ghost function Defined(P: Program): set<TypeId> {
    set i | 0 <= i < |P| && P[i].Func? :: P[i].ty
  }

  ghost function Guarded(P: Program): set<TypeId> {
    set i | 0 <= i < |P| && P[i].Guard? :: P[i].ty
  }

  predicate NamedStruct(T: Type) {
    T.Proper? && T.named && !T.netip && T.under.Struct?
  }

  ghost predicate DeclOk(G: Graph, names: map<TypeId, nat>, d: Decl)
    requires GraphOk(G)
  {
    match d
    case Func(t, name, stmts) =>
      Named(G, names, t) && name == names[t] && !Unreviewed(G[t]) && stmts == Template(G, names, t)
    case Guard(t, mirror) =>
      t in names && t in G && NamedStruct(G[t]) && mirror == MirrorOf(G[t].under.fields)
  }

  /** What holds of the generator's fields between any two of its steps. */
  ghost predicate Inv(G: Graph, root: TypeId, names: map<TypeId, nat>, shapes: set<TypeId>, body: Program)
    requires GraphOk(G)
  {
    && (forall t :: t in names ==> t in G && G[t].Proper? && Reachable(G, root, t) && names[t] < |names|)
    && (forall s, t :: s in names && t in names && names[s] == names[t] ==> s == t)
    && (forall i :: 0 <= i < |body| ==> DeclOk(G, names, body[i]))
    && (forall i, j :: 0 <= i < j < |body| ==> body[i].ty != body[j].ty || body[i].Func? != body[j].Func?)
    && shapes == Guarded(body)
    && (forall t :: t in Defined(body) && NamedStruct(G[t]) ==> t in shapes)
  }

  /** Types that have a name but whose function is still being built: the recursion's stack. */
  ghost function Pending(names: map<TypeId, nat>, body: Program): set<TypeId> {
    names.Keys - Defined(body)
  }

  lemma DeclStable(G: Graph, names: map<TypeId, nat>, names': map<TypeId, nat>, d: Decl)
    requires GraphOk(G) && DeclOk(G, names, d) && Extends(names, names')
    ensures DeclOk(G, names', d)
  {
    if d.Func? {
      assert Template(G, names, d.ty) == Template(G, names', d.ty);
    }
  }

  lemma ReserveName(G: Graph, root: TypeId, names: map<TypeId, nat>, shapes: set<TypeId>, body: Program, t: TypeId)
    requires GraphOk(G) && Inv(G, root, names, shapes, body)
    requires t in G && G[t].Proper? && Reachable(G, root, t) && t !in names
    ensures var names' := names[t := |names|];
      && Extends(names, names')
      && Inv(G, root, names', shapes, body)
      && Pending(names', body) == Pending(names, body) + {t}
      && t !in Defined(body) && t !in shapes
      && |names'| == |names| + 1
  {
    hide DeclOk, Reachable, GraphOk, NamedStruct, Defined, Guarded, Pending, Extends;
    var names' := names[t := |names|];
    assert names'.Keys == names.Keys + {t};
    UnnamedIsUndeclared(G, names, body, t);
    NextNumber(names, t);
    BodyStable(G, names, names', body);
    PendingGrows(names, t, body);
    InvWithMore(G, root, names, names', shapes, body, t);
  }

  lemma InvWithMore(
      G: Graph, root: TypeId, names: map<TypeId, nat>, names': map<TypeId, nat>, shapes: set<TypeId>, body: Program, t: TypeId)
    requires GraphOk(G) && Inv(G, root, names, shapes, body)
    requires t in G && G[t].Proper? && Reachable(G, root, t) && names'.Keys == names.Keys + {t}
    requires forall s :: s in names' ==> names'[s] < |names'|
    requires forall s, u :: s in names' && u in names' && names'[s] == names'[u] ==> s == u
    requires forall i :: 0 <= i < |body| ==> DeclOk(G, names', body[i])
    ensures Inv(G, root, names', shapes, body)
  {
    hide DeclOk, Reachable, GraphOk, NamedStruct, Defined, Guarded;
  }

  lemma NextNumber(names: map<TypeId, nat>, t: TypeId)
    requires t !in names && forall s :: s in names ==> names[s] < |names|
    requires forall s, u :: s in names && u in names && names[s] == names[u] ==> s == u
    ensures var names' := names[t := |names|];
      && Extends(names, names')
      && |names'| == |names| + 1
      && (forall s :: s in names' ==> names'[s] < |names'|)
      && forall s, u :: s in names' && u in names' && names'[s] == names'[u] ==> s == u
  {
  }

  lemma PendingGrows(names: map<TypeId, nat>, t: TypeId, body: Program)
    requires t !in names && t !in Defined(body)
    ensures Pending(names[t := |names|], body) == Pending(names, body) + {t}
  {
    hide Defined;
  }

  lemma UnnamedIsUndeclared(G: Graph, names: map<TypeId, nat>, body: Program, t: TypeId)
    requires GraphOk(G) && t !in names && forall i :: 0 <= i < |body| ==> DeclOk(G, names, body[i])
    ensures t !in Defined(body) && t !in Guarded(body)
  {
    hide Template, GraphOk, Unreviewed;
  }

  lemma BodyStable(G: Graph, names: map<TypeId, nat>, names': map<TypeId, nat>, body: Program)
    requires GraphOk(G) && Extends(names, names') && forall i :: 0 <= i < |body| ==> DeclOk(G, names, body[i])
    ensures forall i :: 0 <= i < |body| ==> DeclOk(G, names', body[i])
  {
    forall i | 0 <= i < |body| ensures DeclOk(G, names', body[i]) {
      DeclStable(G, names, names', body[i]);
    }
  }

  lemma AppendDecl(G: Graph, root: TypeId, names: map<TypeId, nat>, shapes: set<TypeId>, body: Program, d: Decl)
    requires GraphOk(G) && Inv(G, root, names, shapes, body) && DeclOk(G, names, d)
    requires d.Func? ==> d.ty !in Defined(body) && (NamedStruct(G[d.ty]) ==> d.ty in shapes)
    requires d.Guard? ==> d.ty !in shapes
    ensures Inv(G, root, names, if d.Guard? then shapes + {d.ty} else shapes, body + [d])
    ensures Defined(body + [d]) == if d.Func? then Defined(body) + {d.ty} else Defined(body)
  {
    hide Reachable, DeclOk, GraphOk, NamedStruct;
    var longer := body + [d];
    assert forall i :: 0 <= i < |body| ==> longer[i] == body[i];
    assert longer[|body|] == d;
    assert Defined(longer) == if d.Func? then Defined(body) + {d.ty} else Defined(body);
    assert Guarded(longer) == if d.Guard? then Guarded(body) + {d.ty} else Guarded(body);
  }

  /** Between two states of one run: names and declarations are only added, and whatever was
      started in between has been finished. */
  ghost predicate Advance(names: map<TypeId, nat>, body: Program, names': map<TypeId, nat>, body': Program) {
    && Extends(names, names')
    && body <= body'
    && Pending(names', body') == Pending(names, body)
  }

  lemma AdvanceRefl(names: map<TypeId, nat>, body: Program)
    ensures Advance(names, body, names, body)
  {
  }

  lemma AdvanceExtends(names: map<TypeId, nat>, body: Program, names': map<TypeId, nat>, body': Program)
    requires Advance(names, body, names', body')
    ensures Extends(names, names')
  {
  }

  lemma AppendGuard(G: Graph, root: TypeId, names: map<TypeId, nat>, shapes: set<TypeId>, body: Program, t: TypeId)
    requires GraphOk(G) && Inv(G, root, names, shapes, body)
    requires t in names && t in G && NamedStruct(G[t]) && t !in shapes
    ensures var body' := body + [Guard(t, MirrorOf(G[t].under.fields))];
      Inv(G, root, names, shapes + {t}, body') && Advance(names, body, names, body')
  {
    AppendDecl(G, root, names, shapes, body, Guard(t, MirrorOf(G[t].under.fields)));
  }

  /** The first n fields of struct t have been tested by b. */
  ghost predicate Tested(G: Graph, names: map<TypeId, nat>, t: TypeId, n: nat, b: seq<Stmt>)
    requires GraphOk(G) && t in G && G[t].Proper? && !G[t].netip && G[t].under.Struct?
  {
    var fields := G[t].under.fields;
    && n <= |fields|
    && (forall i :: 0 <= i < n ==> fields[i].exported && Unalias(G, Refs(G[t])[i]) in names)
    && b == FieldTests(G, names, t, n)
  }

  lemma TestedNone(G: Graph, names: map<TypeId, nat>, t: TypeId)
    requires GraphOk(G) && t in G && G[t].Proper? && !G[t].netip && G[t].under.Struct?
    ensures Tested(G, names, t, 0, [])
  {
  }

  lemma TestedOne(G: Graph, names: map<TypeId, nat>, names': map<TypeId, nat>, t: TypeId, n: nat, b: seq<Stmt>)
    requires GraphOk(G) && t in G && G[t].Proper? && !G[t].netip && G[t].under.Struct?
    requires Tested(G, names, t, n, b) && Extends(names, names') && n < |G[t].under.fields|
    requires G[t].under.fields[n].exported && G[t].under.fields[n].ty in G
    requires Unalias(G, G[t].under.fields[n].ty) in names'
    ensures
      var test := IfFieldDiffers(names'[Unalias(G, G[t].under.fields[n].ty)], G[t].under.fields[n].name);
      Tested(G, names', t, n + 1, b + [test])
  {
    assert Refs(G[t])[n] == G[t].under.fields[n].ty;
  }

  lemma TestedAll(G: Graph, names: map<TypeId, nat>, t: TypeId, b: seq<Stmt>)
    requires GraphOk(G) && t in G && t in names && G[t].Proper? && !G[t].netip && G[t].under.Struct?
    requires Tested(G, names, t, |G[t].under.fields|, b)
    ensures !Unreviewed(G[t]) && Named(G, names, t) && b + [ReturnTrue] == Template(G, names, t)
  {
  }

  lemma FieldReachable(G: Graph, root: TypeId, t: TypeId, i: nat)
    requires GraphOk(G) && Reachable(G, root, t)
    requires t in G && G[t].Proper? && !G[t].netip && G[t].under.Struct? && i < |G[t].under.fields|
    ensures G[t].under.fields[i].ty in G && Reachable(G, root, Unalias(G, G[t].under.fields[i].ty))
  {
    assert Refs(G[t])[i] == G[t].under.fields[i].ty;
    ReachStep(G, root, t, i);
  }

  lemma PrivateField(T: Type, i: nat)
    requires T.Proper? && !T.netip && T.under.Struct? && i < |T.under.fields| && !T.under.fields[i].exported
    ensures Unreviewed(T)
  {
  }

  lemma AdvanceTrans(
      names0: map<TypeId, nat>, body0: Program, names1: map<TypeId, nat>, body1: Program,
      names2: map<TypeId, nat>, body2: Program)
    requires Advance(names0, body0, names1, body1) && Advance(names1, body1, names2, body2)
    ensures Advance(names0, body0, names2, body2)
  {
  }

  /** The function of t, reserved under the next number and built in between, is appended. */
  lemma FinishFunction(
      G: Graph, root: TypeId, names0: map<TypeId, nat>, body0: Program, t: TypeId,
      names: map<TypeId, nat>, shapes: set<TypeId>, body: Program)
    requires GraphOk(G) && t !in names0 && t !in Defined(body0)
    requires Pending(names0[t := |names0|], body0) == Pending(names0, body0) + {t}
    requires Inv(G, root, names, shapes, body) && Advance(names0[t := |names0|], body0, names, body)
    requires Named(G, names, t) && !Unreviewed(G[t]) && (NamedStruct(G[t]) ==> t in shapes)
    ensures t in names && names[t] == |names0|
    ensures var body' := body + [Func(t, names[t], Template(G, names, t))];
      Inv(G, root, names, shapes, body') && Advance(names0, body0, names, body')
  {
    assert t in names0[t := |names0|];
    assert t in Pending(names, body);
    AppendDecl(G, root, names, shapes, body, Func(t, names[t], Template(G, names, t)));
    assert forall s :: s in names0 ==> s in names0[t := |names0|] && names0[t := |names0|][s] == names0[s];
  }

  class Generator {
    const G: Graph
    var names: map<TypeId, nat>
    var shapes: set<TypeId>
    var body: Program

    constructor (G: Graph)
      ensures this.G == G && names == map[] && shapes == {} && body == []
    {
      this.G := G;
      names, shapes, body := map[], {}, [];
    }

    ghost predicate Valid(root: TypeId)
      reads this
    {
      GraphOk(G) && Inv(G, root, names, shapes, body)
    }

    /** equal: returns the number of t's equality function, emitting what is missing.
        `ok` is false where the Go code panics. */
    method Equal(ty: TypeId, ghost root: TypeId) returns (ok: bool, name: nat)
      requires Valid(root) && ty in G && Reachable(G, root, Unalias(G, ty))
      modifies this`names, this`shapes, this`body
      ensures ok ==> Valid(root) && Advance(old(names), old(body), names, body)
      ensures ok ==> old(shapes) <= shapes
      ensures ok ==> Unalias(G, ty) in names && name == names[Unalias(G, ty)]
      ensures ok && Unalias(G, ty) !in old(names) ==> name == |old(names)|
      ensures !ok ==> exists bad :: Reachable(G, root, bad) && bad in G && Unreviewed(G[bad])
      decreases G.Keys - names.Keys, 0
    {
      hide Inv, Template, Named, Reachable, Unreviewed, Pending, Advance;
      var t := Unalias(G, ty);
      if t in names {
        AdvanceRefl(names, body);
        return true, names[t];
      }
      name := |names|;
      ReserveName(G, root, names, shapes, body, t);
      assert t in G.Keys - names.Keys;
      names := names[t := name];
      var b: seq<Stmt>;
      ok, b := Body(t, root);
      if ok {
        FinishFunction(G, root, old(names), old(body), t, names, shapes, body);
        body := body + [Func(t, name, b)];
      }
    }

    /** The switch over the underlying type of t, whose name is already taken. */
    method Body(t: TypeId, ghost root: TypeId) returns (ok: bool, b: seq<Stmt>)
      requires Valid(root) && t in names && t in G && G[t].Proper? && Reachable(G, root, t) && t !in shapes
      modifies this`names, this`shapes, this`body
      ensures ok ==> Valid(root) && Advance(old(names), old(body), names, body) && old(shapes) <= shapes
      ensures ok ==> !Unreviewed(G[t]) && (NamedStruct(G[t]) ==> t in shapes)
      ensures ok ==> Named(G, names, t) && b == Template(G, names, t)
      ensures !ok ==> exists bad :: Reachable(G, root, bad) && bad in G && Unreviewed(G[bad])
      decreases G.Keys - names.Keys, 2
    {
      hide Inv, Reachable, Pending;
      AdvanceRefl(names, body);
      if G[t].netip {
        return true, [ReturnIdentical];
      }
      var f: nat;
      match G[t].under {
        case Basic =>
          ok, b := true, [ReturnIdentical];
        case Pointer(e) =>
          ReachStep(G, root, t, 0);
          ok, f := Equal(e, root);
          b := [IfNilReturnIdentical, ReturnDeref(f)];
        case Slice(e) =>
          ReachStep(G, root, t, 0);
          ok, f := Equal(e, root);
          b := [IfShapeDiffers, ForIndexes(f), ReturnTrue];
        case Map(_, e) =>
          ReachStep(G, root, t, 0);
          ok, f := Equal(e, root);
          b := [IfShapeDiffers, ForEntries(f), ReturnTrue];
        case Array(e, _) =>
          ReachStep(G, root, t, 0);
          ok, f := Equal(e, root);
          b := [ForIndexes(f), ReturnTrue];
        case Struct(fields) =>
          if G[t].named && t !in shapes {
            AppendGuard(G, root, names, shapes, body, t);
            shapes := shapes + {t};
            body := body + [Guard(t, MirrorOf(fields))];
          }
          ghost var guarded := body;
          ok, b := Fields(t, root);
          if ok {
            AdvanceTrans(old(names), old(body), old(names), guarded, names, body);
          }
        case _ =>
          ok, b := false, [];
      }
    }

    /** The loop over the fields of struct t. */
    method Fields(t: TypeId, ghost root: TypeId) returns (ok: bool, b: seq<Stmt>)
      requires Valid(root) && t in names && t in G && G[t].Proper? && Reachable(G, root, t)
      requires !G[t].netip && G[t].under.Struct?
      modifies this`names, this`shapes, this`body
      ensures ok ==> Valid(root) && Advance(old(names), old(body), names, body) && old(shapes) <= shapes
      ensures ok ==> !Unreviewed(G[t]) && Named(G, names, t) && b == Template(G, names, t)
      ensures !ok ==> exists bad :: Reachable(G, root, bad) && bad in G && Unreviewed(G[bad])
      decreases G.Keys - names.Keys, 1
    {
      hide Inv, Reachable, Pending, Advance, Tested, Named, Unreviewed, Template;
      AdvanceRefl(names, body);
      var fields := G[t].under.fields;
      b := [];
      var i := 0;
      TestedNone(G, names, t);
      while i < |fields|
        invariant i <= |fields|
        invariant Valid(root) && Advance(old(names), old(body), names, body) && old(shapes) <= shapes
        invariant old(names).Keys <= names.Keys
        invariant Tested(G, names, t, i, b)
      {
        if !fields[i].exported {
          PrivateField(G[t], i);
          return false, b;
        }
        FieldReachable(G, root, t, i);
        ghost var names0, body0 := names, body;
        var f: nat;
        ok, f := Equal(fields[i].ty, root);
        if !ok { return; }
        AdvanceTrans(old(names), old(body), names0, body0, names, body);
        AdvanceExtends(names0, body0, names, body);
        TestedOne(G, names0, names, t, i, b);
        b := b + [IfFieldDiffers(f, fields[i].name)];
        i := i + 1;
      }
      TestedAll(G, names, t, b);
      b := b + [ReturnTrue];
      ok := true;
    }
  }
}
