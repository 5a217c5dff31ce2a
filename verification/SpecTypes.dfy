/** The types behind the slice of equality functions that mutation validation uses, and the bodies
    the generator emits for them. */
module SpecTypes {
  import opened Basics
  import opened TypeGraph
  import opened GoFragment
  import opened EqualityGenerator
  import opened GeneratorCorrectness

  // ---------------------------------------------------------------- the type graph

  function Unnamed(kind: Kind): Type {
    Proper(false, false, kind)
  }

  /** A named struct with exported fields; only Annotations is embedded. */
  function NamedOf(fields: seq<(string, TypeId)>): Type {
    Proper(true, false, Struct(seq(|fields|, i requires 0 <= i < |fields| =>
      Field(fields[i].0, true, fields[i].0 == "Annotations", fields[i].1, ""))))
  }

  const TYPES := 27

  predicate IsStruct(t: nat) {
    t in {0, 1, 4, 6, 10, 12, 16, 17, 20, 22, 25}
  }

  /** The fields of the slice's structs. The folded fields ("Other") are taken as slices of integers. */
  function FieldsOf(t: nat): seq<(string, TypeId)> {
    if t == 0 then [("Annotations", 1), ("TaskTemplate", 4), ("Mode", 17), ("Other", 24)]
    else if t == 1 then [("Name", 2), ("Labels", 3)]
    else if t == 4 then [("ContainerSpec", 5), ("Other", 24)]
    else if t == 6 then [("Image", 2), ("Labels", 3), ("Env", 7), ("Secrets", 8), ("Other", 24)]
    else if t == 10 then [("File", 11), ("SecretID", 2), ("SecretName", 2)]
    else if t == 12 then [("Name", 2), ("UID", 2), ("GID", 2), ("Mode", 13)]
    else if t == 16 then [("Replicas", 14)]
    else if t == 17 then [("Replicated", 18), ("Global", 19), ("ReplicatedJob", 21), ("GlobalJob", 23)]
    else if t == 22 then [("MaxConcurrent", 14), ("TotalCompletions", 14)]
    else []
  }

  /** The types of the slice. */
  function SpecType(t: nat): Type {
    if IsStruct(t) then NamedOf(FieldsOf(t))
    else if t == 3 then Unnamed(Map(2, 2))           // map[string]string
    else if t == 5 then Unnamed(Pointer(6))          // *ContainerSpec
    else if t == 7 then Unnamed(Slice(2))            // []string
    else if t == 8 then Unnamed(Slice(9))            // []*SecretReference
    else if t == 9 then Unnamed(Pointer(10))         // *SecretReference
    else if t == 11 then Unnamed(Pointer(12))        // *SecretReferenceFileTarget
    else if t == 13 then Proper(true, false, Basic)  // os.FileMode
    else if t == 14 then Unnamed(Pointer(15))        // *uint64
    else if t == 18 then Unnamed(Pointer(16))        // *ReplicatedService
    else if t == 19 then Unnamed(Pointer(20))        // *GlobalService
    else if t == 21 then Unnamed(Pointer(22))        // *ReplicatedJob
    else if t == 23 then Unnamed(Pointer(25))        // *GlobalJob
    else if t == 24 then Unnamed(Slice(26))          // the folded fields
    else Unnamed(Basic)                              // string, uint64, int
  }

  function SpecGraph(): Graph {
    map t: nat | 0 <= t < TYPES :: SpecType(t)
  }

  lemma NodeOf(t: nat)
    requires t < TYPES
    ensures t in SpecGraph() && SpecGraph()[t] == SpecType(t) && Unalias(SpecGraph(), t) == t
  {
  }

  lemma StructRefs(t: nat)
    requires IsStruct(t)
    ensures |Refs(SpecType(t))| == |FieldsOf(t)| && SpecType(t).under.Struct? && |SpecType(t).under.fields| == |FieldsOf(t)|
    ensures forall i :: 0 <= i < |FieldsOf(t)| ==> Refs(SpecType(t))[i] == FieldsOf(t)[i].1
    ensures forall i :: 0 <= i < |FieldsOf(t)| ==> SpecType(t).under.fields[i].name == FieldsOf(t)[i].0
    ensures !Unreviewed(SpecType(t))
  {
    hide FieldsOf;
  }

  lemma FieldTypesInSlice(t: nat)
    ensures forall i :: 0 <= i < |FieldsOf(t)| ==> FieldsOf(t)[i].1 < TYPES
  {
  }

  lemma RefsOf(t: nat)
    requires t < TYPES
    ensures SpecType(t).Proper? && !SpecType(t).netip && !Unreviewed(SpecType(t))
    ensures SpecType(t).under.Map? ==> SpecType(t).under.key < TYPES
    ensures forall i :: 0 <= i < |Refs(SpecType(t))| ==> Refs(SpecType(t))[i] < TYPES
  {
    if IsStruct(t) {
      StructRefs(t);
      FieldTypesInSlice(t);
    }
    hide FieldsOf;
  }

  /** The generator accepts the slice. */
  lemma SpecGraphIsReviewed()
    ensures GraphOk(SpecGraph()) && Reviewed(SpecGraph(), 0)
  {
    var G := SpecGraph();
    forall t | t in G ensures !Unreviewed(G[t]) && G[t].Proper? && (G[t].under.Map? ==> G[t].under.key in G) {
      RefsOf(t);
    }
    forall t, i | t in G && 0 <= i < |Refs(G[t])| ensures Refs(G[t])[i] in G {
      RefsOf(t);
    }
    hide SpecType, Unreviewed, Reachable, Refs;
  }

  // ---------------------------------------------------------------- the emitted bodies

  predicate AllNamed(names: map<TypeId, nat>) {
    forall t: nat :: t < TYPES ==> t in names
  }

  function Test(names: map<TypeId, nat>, t: TypeId, field: string): Stmt
    requires AllNamed(names) && t < TYPES
  {
    IfFieldDiffers(names[t], field)
  }

  /** The body of each type's function, callees by type. */
  function SliceBody(names: map<TypeId, nat>, t: nat): seq<Stmt>
    requires AllNamed(names)
  {
    if t == 0 then
      [Test(names, 1, "Annotations"), Test(names, 4, "TaskTemplate"), Test(names, 17, "Mode"),
       Test(names, 24, "Other"), ReturnTrue]
    else if t == 1 then [Test(names, 2, "Name"), Test(names, 3, "Labels"), ReturnTrue]
    else if t == 3 then [IfShapeDiffers, ForEntries(names[2]), ReturnTrue]
    else if t == 4 then [Test(names, 5, "ContainerSpec"), Test(names, 24, "Other"), ReturnTrue]
    else if t == 5 then [IfNilReturnIdentical, ReturnDeref(names[6])]
    else if t == 6 then
      [Test(names, 2, "Image"), Test(names, 3, "Labels"), Test(names, 7, "Env"), Test(names, 8, "Secrets"),
       Test(names, 24, "Other"), ReturnTrue]
    else if t == 7 then [IfShapeDiffers, ForIndexes(names[2]), ReturnTrue]
    else if t == 8 then [IfShapeDiffers, ForIndexes(names[9]), ReturnTrue]
    else if t == 9 then [IfNilReturnIdentical, ReturnDeref(names[10])]
    else if t == 10 then [Test(names, 11, "File"), Test(names, 2, "SecretID"), Test(names, 2, "SecretName"), ReturnTrue]
    else if t == 11 then [IfNilReturnIdentical, ReturnDeref(names[12])]
    else if t == 12 then
      [Test(names, 2, "Name"), Test(names, 2, "UID"), Test(names, 2, "GID"), Test(names, 13, "Mode"), ReturnTrue]
    else if t == 14 then [IfNilReturnIdentical, ReturnDeref(names[15])]
    else if t == 16 then [Test(names, 14, "Replicas"), ReturnTrue]
    else if t == 17 then
      [Test(names, 18, "Replicated"), Test(names, 19, "Global"), Test(names, 21, "ReplicatedJob"),
       Test(names, 23, "GlobalJob"), ReturnTrue]
    else if t == 18 then [IfNilReturnIdentical, ReturnDeref(names[16])]
    else if t == 19 then [IfNilReturnIdentical, ReturnDeref(names[20])]
    else if t == 20 || t == 25 then [ReturnTrue]
    else if t == 21 then [IfNilReturnIdentical, ReturnDeref(names[22])]
    else if t == 22 then [Test(names, 14, "MaxConcurrent"), Test(names, 14, "TotalCompletions"), ReturnTrue]
    else if t == 23 then [IfNilReturnIdentical, ReturnDeref(names[25])]
    else if t == 24 then [IfShapeDiffers, ForIndexes(names[26]), ReturnTrue]
    else [ReturnIdentical]
  }

  lemma ChildNamed(names: map<TypeId, nat>, P: Program, t: nat, i: nat)
    requires Emits(SpecGraph(), names, P) && t < TYPES && t in names && i < |Refs(SpecType(t))|
    ensures Refs(SpecType(t))[i] in names
  {
    NodeOf(t);
    RefsOf(t);
    NodeOf(Refs(SpecType(t))[i]);
    hide SpecGraph, SpecType;
    assert Named(SpecGraph(), names, t);
  }

  lemma FieldsNamed(names: map<TypeId, nat>, P: Program, t: nat)
    requires Emits(SpecGraph(), names, P) && t < TYPES && t in names && IsStruct(t)
    ensures forall i :: 0 <= i < |FieldsOf(t)| ==> FieldsOf(t)[i].1 in names
  {
    StructRefs(t);
    hide SpecGraph, SpecType, Emits, FieldsOf;
    forall i | 0 <= i < |FieldsOf(t)| ensures FieldsOf(t)[i].1 in names {
      ChildNamed(names, P, t, i);
    }
  }

  lemma ElemNamed(names: map<TypeId, nat>, P: Program, t: nat, c: TypeId)
    requires Emits(SpecGraph(), names, P) && t < TYPES && t in names && !IsStruct(t) && Refs(SpecType(t)) == [c]
    ensures c in names
  {
    ChildNamed(names, P, t, 0);
  }

  lemma SpecIsNamed(names: map<TypeId, nat>, P: Program)
    requires Emits(SpecGraph(), names, P) && 0 in names
    ensures forall t :: t in [1, 2, 3, 4, 5, 6, 7, 8, 17, 24, 26] ==> t in names
  {
    hide SpecGraph, Emits;
    FieldsNamed(names, P, 0);
    assert forall i :: 0 <= i < 4 ==> FieldsOf(0)[i].1 in names;
    assert FieldsOf(0)[0].1 == 1 && FieldsOf(0)[1].1 == 4 && FieldsOf(0)[2].1 == 17 && FieldsOf(0)[3].1 == 24;
    FieldsNamed(names, P, 1);
    assert FieldsOf(1)[0].1 == 2 && FieldsOf(1)[1].1 == 3;
    FieldsNamed(names, P, 4);
    assert FieldsOf(4)[0].1 == 5;
    ElemNamed(names, P, 5, 6);
    FieldsNamed(names, P, 6);
    assert FieldsOf(6)[2].1 == 7 && FieldsOf(6)[3].1 == 8;
    ElemNamed(names, P, 24, 26);
  }

  lemma SecretsAreNamed(names: map<TypeId, nat>, P: Program)
    requires Emits(SpecGraph(), names, P) && 8 in names
    ensures forall t :: t in [9, 10, 11, 12, 13] ==> t in names
  {
    hide SpecGraph, Emits;
    ElemNamed(names, P, 8, 9);
    ElemNamed(names, P, 9, 10);
    FieldsNamed(names, P, 10);
    assert FieldsOf(10)[0].1 == 11;
    ElemNamed(names, P, 11, 12);
    FieldsNamed(names, P, 12);
    assert FieldsOf(12)[3].1 == 13;
  }

  lemma ModeIsNamed(names: map<TypeId, nat>, P: Program)
    requires Emits(SpecGraph(), names, P) && 17 in names
    ensures forall t :: t in [14, 15, 16, 18, 19, 20, 21, 22, 23, 25] ==> t in names
  {
    hide SpecGraph, Emits;
    FieldsNamed(names, P, 17);
    assert FieldsOf(17)[0].1 == 18 && FieldsOf(17)[1].1 == 19 && FieldsOf(17)[2].1 == 21 && FieldsOf(17)[3].1 == 23;
    ElemNamed(names, P, 18, 16);
    FieldsNamed(names, P, 16);
    assert FieldsOf(16)[0].1 == 14;
    ElemNamed(names, P, 14, 15);
    ElemNamed(names, P, 19, 20);
    ElemNamed(names, P, 21, 22);
    ElemNamed(names, P, 23, 25);
  }

  /** Whatever the order of the walk, the program the generator leaves for the slice consists of
      exactly these bodies, up to the numbers it gives the functions. */
  lemma SliceIsEmitted(names: map<TypeId, nat>, P: Program, t: nat)
    requires Finished(SpecGraph(), 0, names, P) && t < TYPES
    ensures AllNamed(names) && Lookup(P, names[t]) == Some(SliceBody(names, t))
  {
    NodeOf(0);
    FinishedEmits(SpecGraph(), 0, names, P);
    hide Finished, SpecGraph, SliceBody, Template, Named, Emits;
    SliceIsNamed(names, P);
    EmitsTemplate(SpecGraph(), names, P, t);
    TemplateOf(names, t);
  }

  lemma SliceIsNamed(names: map<TypeId, nat>, P: Program)
    requires Emits(SpecGraph(), names, P) && 0 in names
    ensures AllNamed(names)
  {
    hide SpecGraph, Emits;
    SpecIsNamed(names, P);
    SecretsAreNamed(names, P);
    ModeIsNamed(names, P);
  }

  lemma TemplateOf(names: map<TypeId, nat>, t: nat)
    requires GraphOk(SpecGraph()) && t < TYPES && AllNamed(names) && Named(SpecGraph(), names, t)
    ensures Template(SpecGraph(), names, t) == SliceBody(names, t)
  {
    hide Template, SliceBody, SpecGraph, SpecType, FieldsOf;
    if IsStruct(t) {
      StructTemplate(names, t);
    } else {
      PlainTemplate(names, t);
    }
  }

  /** The template of a type with at most one component. */
  lemma ElemTemplate(G: Graph, names: map<TypeId, nat>, t: TypeId)
    requires GraphOk(G) && Named(G, names, t) && !G[t].netip
    ensures G[t].under.Basic? ==> Template(G, names, t) == [ReturnIdentical]
    ensures G[t].under.Pointer? || G[t].under.Slice? || G[t].under.Map? ==>
      G[t].under.elem in G && Unalias(G, G[t].under.elem) in names
    ensures G[t].under.Pointer? ==>
      Template(G, names, t) == [IfNilReturnIdentical, ReturnDeref(names[Unalias(G, G[t].under.elem)])]
    ensures G[t].under.Slice? ==>
      Template(G, names, t) == [IfShapeDiffers, ForIndexes(names[Unalias(G, G[t].under.elem)]), ReturnTrue]
    ensures G[t].under.Map? ==>
      Template(G, names, t) == [IfShapeDiffers, ForEntries(names[Unalias(G, G[t].under.elem)]), ReturnTrue]
  {
    if G[t].under.Pointer? || G[t].under.Slice? || G[t].under.Map? {
      assert Refs(G[t])[0] == G[t].under.elem;
    }
  }

  lemma PlainSliceBody(names: map<TypeId, nat>, t: nat)
    requires t < TYPES && !IsStruct(t) && AllNamed(names)
    ensures var kind := SpecType(t).under;
      && (kind.Basic? || kind.Pointer? || kind.Slice? || kind.Map?)
      && (kind.Basic? ==> SliceBody(names, t) == [ReturnIdentical])
      && (!kind.Basic? ==> kind.elem < TYPES)
      && (kind.Pointer? ==> SliceBody(names, t) == [IfNilReturnIdentical, ReturnDeref(names[kind.elem])])
      && (kind.Slice? ==> SliceBody(names, t) == [IfShapeDiffers, ForIndexes(names[kind.elem]), ReturnTrue])
      && (kind.Map? ==> SliceBody(names, t) == [IfShapeDiffers, ForEntries(names[kind.elem]), ReturnTrue])
  {
    hide FieldsOf, NamedOf;
  }

  lemma PlainTemplate(names: map<TypeId, nat>, t: nat)
    requires GraphOk(SpecGraph()) && t < TYPES && !IsStruct(t) && AllNamed(names) && Named(SpecGraph(), names, t)
    ensures Template(SpecGraph(), names, t) == SliceBody(names, t)
  {
    hide SpecGraph, Template, Named, Refs, GraphOk, SliceBody;
    NodeOf(t);
    assert !SpecType(t).netip;
    PlainSliceBody(names, t);
    ElemTemplate(SpecGraph(), names, t);
    hide SpecType;
    if !SpecType(t).under.Basic? {
      NodeOf(SpecType(t).under.elem);
    }
  }

  lemma StructRefsIn(T: Type, fields: seq<(string, TypeId)>, i: nat)
    requires T == NamedOf(fields) && i < |fields|
    ensures |T.under.fields| == |Refs(T)| == |fields| && T.under.fields[i].name == fields[i].0 && Refs(T)[i] == fields[i].1
  {
  }

  /** The template of a struct, test by test. */
  lemma TestAt(G: Graph, names: map<TypeId, nat>, t: TypeId, i: nat)
    requires GraphOk(G) && Named(G, names, t) && !G[t].netip && G[t].under.Struct? && i < |G[t].under.fields|
    ensures |Template(G, names, t)| == |G[t].under.fields| + 1 && i < |Refs(G[t])| && Refs(G[t])[i] in G
    ensures Unalias(G, Refs(G[t])[i]) in names
    ensures Template(G, names, t)[i] == IfFieldDiffers(names[Unalias(G, Refs(G[t])[i])], G[t].under.fields[i].name)
  {
  }

  lemma StructBody(G: Graph, names: map<TypeId, nat>, t: TypeId, fields: seq<(string, TypeId)>)
    requires GraphOk(G) && Named(G, names, t) && G[t] == NamedOf(fields)
    requires forall i :: 0 <= i < |fields| ==> fields[i].1 in G && Unalias(G, fields[i].1) == fields[i].1 && fields[i].1 in names
    ensures |Template(G, names, t)| == |fields| + 1 && Template(G, names, t)[|fields|] == ReturnTrue
    ensures forall i :: 0 <= i < |fields| ==> Template(G, names, t)[i] == IfFieldDiffers(names[fields[i].1], fields[i].0)
  {
    assert |Template(G, names, t)| == |fields| + 1 && Template(G, names, t)[|fields|] == ReturnTrue;
    assert !G[t].netip && G[t].under.Struct? && |G[t].under.fields| == |fields|;
    hide Template, GraphOk, Named, NamedOf, Refs, Unalias;
    forall i | 0 <= i < |fields| ensures Template(G, names, t)[i] == IfFieldDiffers(names[fields[i].1], fields[i].0) {
      StructRefsIn(G[t], fields, i);
      TestAt(G, names, t, i);
    }
  }

  lemma FieldNodes(names: map<TypeId, nat>, t: nat)
    requires AllNamed(names)
    ensures forall i :: 0 <= i < |FieldsOf(t)| ==>
      && FieldsOf(t)[i].1 in SpecGraph() && FieldsOf(t)[i].1 in names
      && Unalias(SpecGraph(), FieldsOf(t)[i].1) == FieldsOf(t)[i].1
  {
    FieldTypesInSlice(t);
    hide FieldsOf, SpecType;
    forall i | 0 <= i < |FieldsOf(t)|
      ensures FieldsOf(t)[i].1 in SpecGraph() && Unalias(SpecGraph(), FieldsOf(t)[i].1) == FieldsOf(t)[i].1
    {
      NodeOf(FieldsOf(t)[i].1);
    }
  }

  lemma StructTemplate(names: map<TypeId, nat>, t: nat)
    requires GraphOk(SpecGraph()) && t < TYPES && IsStruct(t) && AllNamed(names) && Named(SpecGraph(), names, t)
    ensures Template(SpecGraph(), names, t) == SliceBody(names, t)
  {
    hide SliceBody, FieldsOf, NamedOf, Template, Named, GraphOk, SpecGraph, Refs;
    NodeOf(t);
    FieldNodes(names, t);
    StructSliceBody(names, t);
    assert SpecGraph()[t] == NamedOf(FieldsOf(t));
    hide SpecType, IsStruct, AllNamed, Unalias;
    StructBody(SpecGraph(), names, t, FieldsOf(t));
    var body, slice, n := Template(SpecGraph(), names, t), SliceBody(names, t), |FieldsOf(t)|;
    assert |body| == |slice| == n + 1;
    forall i | 0 <= i <= n ensures body[i] == slice[i] {
    }
  }

  lemma StructSliceBody(names: map<TypeId, nat>, t: nat)
    requires IsStruct(t) && AllNamed(names)
    ensures |SliceBody(names, t)| == |FieldsOf(t)| + 1 && SliceBody(names, t)[|FieldsOf(t)|] == ReturnTrue
    ensures forall i :: 0 <= i < |FieldsOf(t)| ==>
      FieldsOf(t)[i].1 < TYPES && SliceBody(names, t)[i] == IfFieldDiffers(names[FieldsOf(t)[i].1], FieldsOf(t)[i].0)
  {
  }

  /** The generator, run on the slice's types. */
  method GenerateSlice() returns (names: map<TypeId, nat>, P: Program)
    ensures Finished(SpecGraph(), 0, names, P)
    ensures AllNamed(names) && forall t: nat :: t < TYPES ==> Lookup(P, names[t]) == Some(SliceBody(names, t))
  {
    SpecGraphIsReviewed();
    NodeOf(0);
    hide SpecGraph, Finished, Reviewed, GraphOk, DecidesEquality, SliceBody, Lookup;
    var out := Generate(SpecGraph(), 0);
    names, P := out.value.0, out.value.1;
    SliceIsEmitted(names, P, 0);
    forall t: nat | t < TYPES ensures Lookup(P, names[t]) == Some(SliceBody(names, t)) {
      SliceIsEmitted(names, P, t);
    }
  }
}
