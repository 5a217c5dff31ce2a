/** Specs as Go values of the slice's types: what the generator emits for the slice decides equality
    of specs, as the slice itself does. */
module SpecEncoding {
  import opened Basics
  import opened TypeGraph
  import opened GoFragment
  import opened GeneratorCorrectness
  import opened MapKeys
  import opened SpecTypes
  import EqualGenerated
  import S = SwarmSpec

  // ---------------------------------------------------------------- specs as values of the graph

  /** Strings are numbered injectively. */
  function Code(s: string): (n: nat)
    ensures n >= 1
  {
    if s == "" then 1 else Code(s[..|s| - 1]) * 0x110000 + s[|s| - 1] as int
  }

  lemma {:induction false} CodeInjective(s: string, t: string)
    requires Code(s) == Code(t)
    ensures s == t
  {
    if s != "" && t != "" {
      var c, d := s[|s| - 1] as int, t[|t| - 1] as int;
      assert 0 <= c < 0x110000 && 0 <= d < 0x110000;
      CodeInjective(s[..|s| - 1], t[..|t| - 1]);
      assert s == s[..|s| - 1] + [s[|s| - 1]] && t == t[..|t| - 1] + [t[|t| - 1]];
    }
  }

  lemma CodesDiffer()
    ensures forall s, t :: Code(s) == Code(t) ==> s == t
  {
    forall s, t | Code(s) == Code(t) ensures s == t {
      CodeInjective(s, t);
    }
  }

  ghost predicate NamesDiffer(fields: seq<(string, TypeId)>) {
    forall i, j :: 0 <= i < j < |fields| ==> fields[i].0 != fields[j].0
  }

  lemma FieldNamesDiffer(t: nat)
    ensures NamesDiffer(FieldsOf(t))
  {
  }

  function ColumnsOf(fields: seq<(string, TypeId)>, xs: seq<Value>): (parts: map<string, Value>)
    requires |xs| == |fields| && NamesDiffer(fields)
    ensures forall i :: 0 <= i < |xs| ==> fields[i].0 in parts && parts[fields[i].0] == xs[i]
    ensures forall n :: n in parts ==> exists i :: 0 <= i < |xs| && fields[i].0 == n
  {
    if xs == [] then map[]
    else
      var n := |xs| - 1;
      ColumnsOf(fields[..n], xs[..n])[fields[n].0 := xs[n]]
  }

  /** A struct of type t with the given field values. */
  function Rec(t: nat, xs: seq<Value>): Value
    requires |xs| == |FieldsOf(t)|
  {
    FieldNamesDiffer(t);
    StructOf(ColumnsOf(FieldsOf(t), xs))
  }

  function Text(s: string): Value {
    Scalar(Code(s))
  }

  function Texts(at: nat, o: Option<seq<string>>): Value {
    if o.None? then NilSlice else SliceOf(at, seq(|o.value|, i requires 0 <= i < |o.value| => Text(o.value[i])))
  }

  function LabelMap(at: nat, m: S.StringMap): Value {
    if m.NilMap? then NilMap
    else
      CodesDiffer();
      MapOf(at, map k | k in m.entries :: Bits(Code(k)) := Entry(Text(k), Text(m.entries[k])))
  }

  function Folded(at: nat, o: S.Opaque): Value {
    SliceOf(at, seq(|o.encoding|, i requires 0 <= i < |o.encoding| => Scalar(o.encoding[i])))
  }

  function Count(at: nat, o: Option<nat>): Value {
    if o.None? then NilPtr else Ptr(at, Scalar(o.value))
  }

  function File(v: S.FileView): Value {
    Rec(12, [Text(v.Name), Text(v.UID), Text(v.GID), Scalar(v.Mode)])
  }

  function FileRef(at: nat, o: Option<S.FileView>): Value {
    if o.None? then NilPtr else Ptr(at, File(o.value))
  }

  function Secret(at: nat, v: S.SecretView): Value {
    Rec(10, [FileRef(at, v.File), Text(v.SecretID), Text(v.SecretName)])
  }

  function SecretRef(at: nat, o: Option<S.SecretView>): Value {
    if o.None? then NilPtr else Ptr(at, Secret(at, o.value))
  }

  function Secrets(at: nat, o: Option<seq<Option<S.SecretView>>>): Value {
    if o.None? then NilSlice else SliceOf(at, seq(|o.value|, i requires 0 <= i < |o.value| => SecretRef(at, o.value[i])))
  }

  function Container(at: nat, c: S.ContainerView): Value {
    Rec(6, [Text(c.Image), LabelMap(at, c.Labels), Texts(at, c.Env), Secrets(at, c.Secrets), Folded(at, c.Other)])
  }

  function ContainerRef(at: nat, o: Option<S.ContainerView>): Value {
    if o.None? then NilPtr else Ptr(at, Container(at, o.value))
  }

  function Replicated(at: nat, o: Option<Option<nat>>): Value {
    if o.None? then NilPtr else Ptr(at, Rec(16, [Count(at, o.value)]))
  }

  function Job(at: nat, v: S.JobView): Value {
    Rec(22, [Count(at, v.MaxConcurrent), Count(at, v.TotalCompletions)])
  }

  function JobRef(at: nat, o: Option<S.JobView>): Value {
    if o.None? then NilPtr else Ptr(at, Job(at, o.value))
  }

  /** A pointer to an empty struct. */
  function Present(at: nat, empty: nat, present: bool): Value
    requires empty == 20 || empty == 25
  {
    if present then Ptr(at, Rec(empty, [])) else NilPtr
  }

  function Mode(at: nat, m: S.ModeView): Value {
    Rec(17, [Replicated(at, m.Replicated), Present(at, 20, m.Global), JobRef(at, m.ReplicatedJob), Present(at, 25, m.GlobalJob)])
  }

  function Annotated(at: nat, v: S.SpecView): Value {
    Rec(1, [Text(v.Name), LabelMap(at, v.Labels)])
  }

  function Task(at: nat, v: S.SpecView): Value {
    Rec(4, [ContainerRef(at, v.Container), Folded(at, v.Task)])
  }

  /** A spec as a value of the graph's root type, its objects at the given address. */
  function Encoded(at: nat, v: S.SpecView): Value {
    Rec(0, [Annotated(at, v), Task(at, v), Mode(at, v.Mode), Folded(at, v.Other)])
  }

  // ---------------------------------------------------------------- encodings are typed

  ghost predicate Typed(t: nat, v: Value) {
    GraphOk(SpecGraph()) && t in SpecGraph() && HasType(SpecGraph(), t, v)
  }

  lemma TypedScalar(t: nat, n: int)
    requires t < TYPES && SpecType(t).under.Basic?
    ensures Typed(t, Scalar(n))
  {
    SpecGraphIsReviewed();
    NodeOf(t);
    hide SpecGraph, SpecType;
  }

  lemma TypedPointer(t: nat, c: nat, at: nat, x: Value)
    requires t < TYPES && c < TYPES && SpecType(t) == Unnamed(Pointer(c)) && Typed(c, x)
    ensures Typed(t, Ptr(at, x))
  {
    NodeOf(t);
    NodeOf(c);
    hide SpecGraph, SpecType;
  }

  lemma TypedNil(t: nat)
    requires t < TYPES
    ensures SpecType(t).under.Pointer? ==> Typed(t, NilPtr)
    ensures SpecType(t).under.Slice? ==> Typed(t, NilSlice)
    ensures SpecType(t).under.Map? ==> Typed(t, NilMap)
  {
    SpecGraphIsReviewed();
    RefsOf(t);
    NodeOf(t);
    hide SpecGraph, SpecType;
  }

  lemma TypedSlice(t: nat, c: nat, at: nat, xs: seq<Value>)
    requires t < TYPES && c < TYPES && SpecType(t) == Unnamed(Slice(c)) && forall i :: 0 <= i < |xs| ==> Typed(c, xs[i])
    ensures Typed(t, SliceOf(at, xs))
  {
    SpecGraphIsReviewed();
    NodeOf(t);
    NodeOf(c);
    hide SpecGraph, SpecType;
  }

  ghost predicate HasFields(G: Graph, t: TypeId, fields: seq<(string, TypeId)>) {
    && GraphOk(G) && t in G && G[t].Proper? && !G[t].netip && G[t].under.Struct?
    && |G[t].under.fields| == |fields| == |Refs(G[t])|
    && forall i :: 0 <= i < |fields| ==>
      G[t].under.fields[i].name == fields[i].0 && Refs(G[t])[i] == fields[i].1 && fields[i].1 in G
  }

  lemma StructNode(t: nat)
    requires t < TYPES && IsStruct(t)
    ensures HasFields(SpecGraph(), t, FieldsOf(t))
  {
    hide SpecGraph, FieldsOf, Refs, Unreviewed, GraphOk;
    SpecGraphIsReviewed();
    NodeOf(t);
    RefsOf(t);
    StructRefs(t);
    FieldTypesInSlice(t);
    forall i | 0 <= i < |FieldsOf(t)| ensures FieldsOf(t)[i].1 in SpecGraph() {
      NodeOf(FieldsOf(t)[i].1);
    }
  }

  lemma TypedColumns(G: Graph, t: TypeId, fields: seq<(string, TypeId)>, xs: seq<Value>)
    requires HasFields(G, t, fields) && NamesDiffer(fields) && |xs| == |fields|
    requires forall i :: 0 <= i < |xs| ==> HasType(G, fields[i].1, xs[i])
    ensures HasType(G, t, StructOf(ColumnsOf(fields, xs)))
  {
    hide ColumnsOf, Refs, GraphOk;
    var parts := ColumnsOf(fields, xs);
    assert parts.Keys == set i | 0 <= i < |G[t].under.fields| :: G[t].under.fields[i].name;
  }

  lemma TypedRec(t: nat, xs: seq<Value>)
    requires t < TYPES && IsStruct(t) && |xs| == |FieldsOf(t)|
    requires forall i :: 0 <= i < |xs| ==> Typed(FieldsOf(t)[i].1, xs[i])
    ensures Typed(t, Rec(t, xs))
  {
    hide SpecGraph, FieldsOf, ColumnsOf, HasType, IsStruct, NamesDiffer;
    StructNode(t);
    FieldNamesDiffer(t);
    TypedColumns(SpecGraph(), t, FieldsOf(t), xs);
  }

  lemma LabelEntries(at: nat, m: S.StringMap)
    requires m.MapOf?
    ensures LabelMap(at, m).MapOf?
    ensures forall k :: k in m.entries <==> Bits(Code(k)) in LabelMap(at, m).entries
    ensures forall k :: k in m.entries ==> LabelMap(at, m).entries[Bits(Code(k))] == Entry(Text(k), Text(m.entries[k]))
  {
    CodesDiffer();
    hide Code;
  }

  lemma LabelEntry(at: nat, m: S.StringMap, id: Key) returns (k: string)
    requires m.MapOf? && id in LabelMap(at, m).entries
    ensures k in m.entries && id == Bits(Code(k)) && LabelMap(at, m).entries[id] == Entry(Text(k), Text(m.entries[k]))
  {
    CodesDiffer();
    hide Code;
    k :| k in m.entries && id == Bits(Code(k));
  }

  lemma MapTyped(G: Graph, t: TypeId, v: Value)
    requires GraphOk(G) && t in G && G[t].Proper? && !G[t].netip && G[t].under.Map? && v.MapOf?
    requires G[t].under.key in G && G[t].under.elem in G
    requires forall id :: id in v.entries ==>
      && KeyIdentity(v.entries[id].key) == id
      && HasType(G, G[t].under.key, v.entries[id].key)
      && HasType(G, G[t].under.elem, v.entries[id].elem)
    ensures HasType(G, t, v)
  {
    hide KeyIdentity;
    assert Refs(G[t])[0] == G[t].under.elem;
  }

  lemma TypedMap(t: nat, k: nat, e: nat, v: Value)
    requires t < TYPES && k < TYPES && e < TYPES && SpecType(t) == Unnamed(Map(k, e)) && v.MapOf?
    requires forall id :: id in v.entries ==>
      KeyIdentity(v.entries[id].key) == id && Typed(k, v.entries[id].key) && Typed(e, v.entries[id].elem)
    ensures Typed(t, v)
  {
    hide SpecGraph, KeyIdentity, HasType, FieldsOf, IsStruct, GraphOk, Reviewed;
    SpecGraphIsReviewed();
    NodeOf(t);
    NodeOf(k);
    NodeOf(e);
    MapTyped(SpecGraph(), t, v);
  }

  lemma TextTyped(s: string)
    ensures Typed(2, Text(s))
  {
    TypedScalar(2, Code(s));
  }

  lemma TypedLabels(at: nat, m: S.StringMap)
    ensures Typed(3, LabelMap(at, m))
  {
    hide Typed, FieldsOf, NamedOf;
    TypedNil(3);
    assert SpecType(3) == Unnamed(Map(2, 2));
    if m.MapOf? {
      var v := LabelMap(at, m);
      assert v.MapOf?;
      hide LabelMap, Code, SpecType;
      forall id | id in v.entries
        ensures KeyIdentity(v.entries[id].key) == id && Typed(2, v.entries[id].key) && Typed(2, v.entries[id].elem)
      {
        var k := LabelEntry(at, m, id);
        TextTyped(k);
        TextTyped(m.entries[k]);
      }
      TypedMap(3, 2, 2, v);
    }
  }

  // ---------------------------------------------------------------- encodings compare as the specs do

  ghost predicate Same(x: Value, y: Value) {
    Compared(x) == Compared(y)
  }

  lemma SameColumnsBy(fields: seq<(string, TypeId)>, xs: seq<Value>, ys: seq<Value>)
    requires NamesDiffer(fields) && |xs| == |ys| == |fields|
    ensures Same(StructOf(ColumnsOf(fields, xs)), StructOf(ColumnsOf(fields, ys))) <==>
      forall i :: 0 <= i < |xs| ==> Same(xs[i], ys[i])
  {
    hide ColumnsOf, Compared;
    var u, v := ColumnsOf(fields, xs), ColumnsOf(fields, ys);
    assert u.Keys == v.Keys;
    SameColumns(StructOf(u), StructOf(v));
    if forall n :: n in u ==> SameField(StructOf(u), StructOf(v), n) {
      forall i | 0 <= i < |xs| ensures Same(xs[i], ys[i]) {
        assert SameField(StructOf(u), StructOf(v), fields[i].0);
      }
    }
  }

  lemma SameRec(t: nat, xs: seq<Value>, ys: seq<Value>)
    requires |xs| == |ys| == |FieldsOf(t)|
    ensures Same(Rec(t, xs), Rec(t, ys)) <==> forall i :: 0 <= i < |xs| ==> Same(xs[i], ys[i])
  {
    hide FieldsOf, ColumnsOf, Same, NamesDiffer;
    FieldNamesDiffer(t);
    SameColumnsBy(FieldsOf(t), xs, ys);
  }

  lemma SameList(p: nat, q: nat, xs: seq<Value>, ys: seq<Value>)
    ensures Same(SliceOf(p, xs), SliceOf(q, ys)) <==> |xs| == |ys| && forall i :: 0 <= i < |xs| ==> Same(xs[i], ys[i])
  {
    if |xs| == |ys| {
      SequenceByItems(xs, ys, true);
    } else {
      assert |Compared(SliceOf(p, xs)).trees| == |xs| && |Compared(SliceOf(q, ys)).trees| == |ys|;
    }
  }

  lemma SamePointer(p: nat, q: nat, x: Value, y: Value)
    ensures Same(Ptr(p, x), Ptr(q, y)) <==> Same(x, y)
    ensures !Same(Ptr(p, x), NilPtr) && !Same(NilPtr, Ptr(q, y)) && Same(NilPtr, NilPtr)
  {
  }

  lemma TextIs(s: string, t: string)
    ensures Typed(2, Text(s)) && (Same(Text(s), Text(t)) <==> s == t)
  {
    TextTyped(s);
    if Code(s) == Code(t) {
      CodeInjective(s, t);
    }
  }

  lemma TextsTyped(at: nat, v: Option<seq<string>>)
    ensures Typed(7, Texts(at, v))
  {
    hide Typed, Code, FieldsOf, NamedOf;
    TypedNil(7);
    if v.Some? {
      var xs := Texts(at, v).items;
      forall i | 0 <= i < |xs| ensures Typed(2, xs[i]) {
        TypedScalar(2, Code(v.value[i]));
      }
      TypedSlice(7, 2, at, xs);
    }
  }

  lemma TextsAre(p: nat, q: nat, v: Option<seq<string>>, w: Option<seq<string>>)
    ensures Typed(7, Texts(p, v)) && (Same(Texts(p, v), Texts(q, w)) <==> v == w)
  {
    TextsTyped(p, v);
    hide Typed, Code;
    if v.Some? && w.Some? {
      var xs, ys := Texts(p, v).items, Texts(q, w).items;
      SameList(p, q, xs, ys);
      hide Same;
      forall i | 0 <= i < |xs| && i < |ys| ensures Same(xs[i], ys[i]) <==> v.value[i] == w.value[i] {
        TextIs(v.value[i], w.value[i]);
      }
      assert Same(Texts(p, v), Texts(q, w)) ==> v.value == w.value;
    }
  }

  lemma FoldedTyped(at: nat, v: S.Opaque)
    ensures Typed(24, Folded(at, v))
  {
    hide Typed, FieldsOf, NamedOf;
    var xs := Folded(at, v).items;
    forall i | 0 <= i < |xs| ensures Typed(26, xs[i]) {
      TypedScalar(26, v.encoding[i]);
    }
    TypedSlice(24, 26, at, xs);
  }

  lemma FoldedIs(p: nat, q: nat, v: S.Opaque, w: S.Opaque)
    ensures Typed(24, Folded(p, v)) && (Same(Folded(p, v), Folded(q, w)) <==> v == w)
  {
    hide Typed;
    FoldedTyped(p, v);
    var xs, ys := Folded(p, v).items, Folded(q, w).items;
    SameList(p, q, xs, ys);
    assert forall i :: 0 <= i < |xs| && i < |ys| ==> (Same(xs[i], ys[i]) <==> v.encoding[i] == w.encoding[i]);
    hide Same;
    if |xs| == |ys| && forall i :: 0 <= i < |xs| ==> Same(xs[i], ys[i]) {
      assert v.encoding == w.encoding;
    }
  }

  lemma LabelsAre(p: nat, q: nat, v: S.StringMap, w: S.StringMap)
    ensures Typed(3, LabelMap(p, v)) && (Same(LabelMap(p, v), LabelMap(q, w)) <==> v == w)
  {
    TypedLabels(p, v);
    if v.MapOf? && w.MapOf? {
      var a, b := LabelMap(p, v), LabelMap(q, w);
      TablesAgree(a, b);
      LabelEntries(p, v);
      LabelEntries(q, w);
      CodesDiffer();
      hide Code, Compared, LabelMap;
      if Same(a, b) {
        forall k | k in v.entries ensures k in w.entries && v.entries[k] == w.entries[k] {
          assert Bits(Code(k)) in a.entries && Bits(Code(k)) in b.entries;
          TextIs(v.entries[k], w.entries[k]);
        }
        forall k | k in w.entries ensures k in v.entries {
          assert Bits(Code(k)) in b.entries && Bits(Code(k)) in a.entries;
        }
        SameMap(v.entries, w.entries);
      }
    }
  }

  lemma CountIs(p: nat, q: nat, v: Option<nat>, w: Option<nat>)
    ensures Typed(14, Count(p, v)) && (Same(Count(p, v), Count(q, w)) <==> v == w)
  {
    hide Typed, FieldsOf, NamedOf, Same;
    var m, n := if v.Some? then v.value else 0, if w.Some? then w.value else 0;
    TypedNil(14);
    ScalarIs(15, m, n);
    TypedPointer(14, 15, p, Scalar(m));
    SamePointer(p, q, Scalar(m), Scalar(n));
  }

  lemma FileIs(v: S.FileView, w: S.FileView)
    ensures Typed(12, File(v)) && (Same(File(v), File(w)) <==> v == w)
  {
    hide Typed, Same, Text, Rec, NamedOf;
    var xs := [Text(v.Name), Text(v.UID), Text(v.GID), Scalar(v.Mode)];
    var ys := [Text(w.Name), Text(w.UID), Text(w.GID), Scalar(w.Mode)];
    TextIs(v.Name, w.Name);
    TextIs(v.UID, w.UID);
    TextIs(v.GID, w.GID);
    ScalarIs(13, v.Mode, w.Mode);
    TypedRec(12, xs);
    SameRec(12, xs, ys);
    hide FieldsOf, SpecType;
    assert (forall i :: 0 <= i < 4 ==> Same(xs[i], ys[i])) <==>
      Same(xs[0], ys[0]) && Same(xs[1], ys[1]) && Same(xs[2], ys[2]) && Same(xs[3], ys[3]);
  }

  lemma ScalarIs(t: nat, m: int, n: int)
    requires t < TYPES && SpecType(t).under.Basic?
    ensures Typed(t, Scalar(m)) && (Same(Scalar(m), Scalar(n)) <==> m == n)
  {
    TypedScalar(t, m);
  }

  lemma FileRefIs(p: nat, q: nat, v: Option<S.FileView>, w: Option<S.FileView>)
    ensures Typed(11, FileRef(p, v)) && (Same(FileRef(p, v), FileRef(q, w)) <==> v == w)
  {
    hide Typed, FieldsOf, NamedOf, Same, File;
    TypedNil(11);
    var f, g := if v.Some? then v.value else S.FileView("", "", "", 0), if w.Some? then w.value else S.FileView("", "", "", 0);
    FileIs(f, g);
    TypedPointer(11, 12, p, File(f));
    SamePointer(p, q, File(f), File(g));
  }

  lemma SecretIs(p: nat, q: nat, v: S.SecretView, w: S.SecretView)
    ensures Typed(10, Secret(p, v)) && (Same(Secret(p, v), Secret(q, w)) <==> v == w)
  {
    hide Typed, Same, Text, FileRef, Rec, NamedOf;
    var xs := [FileRef(p, v.File), Text(v.SecretID), Text(v.SecretName)];
    var ys := [FileRef(q, w.File), Text(w.SecretID), Text(w.SecretName)];
    FileRefIs(p, q, v.File, w.File);
    TextIs(v.SecretID, w.SecretID);
    TextIs(v.SecretName, w.SecretName);
    TypedRec(10, xs);
    SameRec(10, xs, ys);
    hide FieldsOf, SpecType;
    assert (forall i :: 0 <= i < 3 ==> Same(xs[i], ys[i])) <==>
      Same(xs[0], ys[0]) && Same(xs[1], ys[1]) && Same(xs[2], ys[2]);
  }

  lemma SecretRefIs(p: nat, q: nat, v: Option<S.SecretView>, w: Option<S.SecretView>)
    ensures Typed(9, SecretRef(p, v)) && (Same(SecretRef(p, v), SecretRef(q, w)) <==> v == w)
  {
    hide Typed, FieldsOf, NamedOf, Same, Secret;
    TypedNil(9);
    var none := S.SecretView(None, "", "");
    var a, b := if v.Some? then v.value else none, if w.Some? then w.value else none;
    SecretIs(p, q, a, b);
    TypedPointer(9, 10, p, Secret(p, a));
    SamePointer(p, q, Secret(p, a), Secret(q, b));
  }

  lemma SecretsTyped(at: nat, v: Option<seq<Option<S.SecretView>>>)
    ensures Typed(8, Secrets(at, v))
  {
    hide Typed, SecretRef, FieldsOf, NamedOf, Same;
    TypedNil(8);
    if v.Some? {
      var xs := Secrets(at, v).items;
      forall i | 0 <= i < |xs| ensures Typed(9, xs[i]) {
        SecretRefIs(at, at, v.value[i], v.value[i]);
      }
      TypedSlice(8, 9, at, xs);
    }
  }

  lemma SecretsAre(p: nat, q: nat, v: Option<seq<Option<S.SecretView>>>, w: Option<seq<Option<S.SecretView>>>)
    ensures Typed(8, Secrets(p, v)) && (Same(Secrets(p, v), Secrets(q, w)) <==> v == w)
  {
    SecretsTyped(p, v);
    hide Typed, SecretRef;
    if v.Some? && w.Some? {
      var xs, ys := Secrets(p, v).items, Secrets(q, w).items;
      SameList(p, q, xs, ys);
      hide Same;
      forall i | 0 <= i < |xs| && i < |ys| ensures Same(xs[i], ys[i]) <==> v.value[i] == w.value[i] {
        SecretRefIs(p, q, v.value[i], w.value[i]);
      }
      assert Same(Secrets(p, v), Secrets(q, w)) ==> v.value == w.value;
    }
  }

  lemma ContainerIs(p: nat, q: nat, v: S.ContainerView, w: S.ContainerView)
    ensures Typed(6, Container(p, v)) && (Same(Container(p, v), Container(q, w)) <==> v == w)
  {
    hide Typed, Same, Text, Texts, LabelMap, Secrets, Folded, Rec, NamedOf;
    var xs := [Text(v.Image), LabelMap(p, v.Labels), Texts(p, v.Env), Secrets(p, v.Secrets), Folded(p, v.Other)];
    var ys := [Text(w.Image), LabelMap(q, w.Labels), Texts(q, w.Env), Secrets(q, w.Secrets), Folded(q, w.Other)];
    TextIs(v.Image, w.Image);
    LabelsAre(p, q, v.Labels, w.Labels);
    TextsAre(p, q, v.Env, w.Env);
    SecretsAre(p, q, v.Secrets, w.Secrets);
    FoldedIs(p, q, v.Other, w.Other);
    TypedRec(6, xs);
    SameRec(6, xs, ys);
    hide FieldsOf, SpecType;
    assert (forall i :: 0 <= i < 5 ==> Same(xs[i], ys[i])) <==>
      Same(xs[0], ys[0]) && Same(xs[1], ys[1]) && Same(xs[2], ys[2]) && Same(xs[3], ys[3]) && Same(xs[4], ys[4]);
  }

  lemma ContainerRefIs(p: nat, q: nat, v: Option<S.ContainerView>, w: Option<S.ContainerView>)
    ensures Typed(5, ContainerRef(p, v)) && (Same(ContainerRef(p, v), ContainerRef(q, w)) <==> v == w)
  {
    hide Typed, FieldsOf, NamedOf, Same, Container;
    TypedNil(5);
    var none := S.ContainerView("", S.NilMap, None, None, S.Opaque([]));
    var a, b := if v.Some? then v.value else none, if w.Some? then w.value else none;
    ContainerIs(p, q, a, b);
    TypedPointer(5, 6, p, Container(p, a));
    SamePointer(p, q, Container(p, a), Container(q, b));
  }

  lemma ReplicatedIs(p: nat, q: nat, v: Option<Option<nat>>, w: Option<Option<nat>>)
    ensures Typed(18, Replicated(p, v)) && (Same(Replicated(p, v), Replicated(q, w)) <==> v == w)
  {
    hide Typed, NamedOf, Same, Count, Rec;
    TypedNil(18);
    var a, b := if v.Some? then v.value else None, if w.Some? then w.value else None;
    var xs, ys := [Count(p, a)], [Count(q, b)];
    CountIs(p, q, a, b);
    TypedRec(16, xs);
    SameRec(16, xs, ys);
    TypedPointer(18, 16, p, Rec(16, xs));
    SamePointer(p, q, Rec(16, xs), Rec(16, ys));
    hide FieldsOf, SpecType;
    assert (forall i :: 0 <= i < 1 ==> Same(xs[i], ys[i])) <==> Same(xs[0], ys[0]);
  }

  lemma JobIs(p: nat, q: nat, v: S.JobView, w: S.JobView)
    ensures Typed(22, Job(p, v)) && (Same(Job(p, v), Job(q, w)) <==> v == w)
  {
    hide Typed, Same, Count, Rec, NamedOf;
    var xs := [Count(p, v.MaxConcurrent), Count(p, v.TotalCompletions)];
    var ys := [Count(q, w.MaxConcurrent), Count(q, w.TotalCompletions)];
    CountIs(p, q, v.MaxConcurrent, w.MaxConcurrent);
    CountIs(p, q, v.TotalCompletions, w.TotalCompletions);
    TypedRec(22, xs);
    SameRec(22, xs, ys);
    hide FieldsOf, SpecType;
    assert (forall i :: 0 <= i < 2 ==> Same(xs[i], ys[i])) <==> Same(xs[0], ys[0]) && Same(xs[1], ys[1]);
  }

  lemma JobRefIs(p: nat, q: nat, v: Option<S.JobView>, w: Option<S.JobView>)
    ensures Typed(21, JobRef(p, v)) && (Same(JobRef(p, v), JobRef(q, w)) <==> v == w)
  {
    hide Typed, FieldsOf, NamedOf, Same, Job;
    TypedNil(21);
    var a, b := if v.Some? then v.value else S.JobView(None, None), if w.Some? then w.value else S.JobView(None, None);
    JobIs(p, q, a, b);
    TypedPointer(21, 22, p, Job(p, a));
    SamePointer(p, q, Job(p, a), Job(q, b));
  }

  lemma PresentIs(p: nat, q: nat, t: nat, empty: nat, v: bool, w: bool)
    requires (t == 19 && empty == 20) || (t == 23 && empty == 25)
    ensures Typed(t, Present(p, empty, v)) && (Same(Present(p, empty, v), Present(q, empty, w)) <==> v == w)
  {
    hide Typed, NamedOf, Same, Rec;
    TypedNil(t);
    TypedRec(empty, []);
    TypedPointer(t, empty, p, Rec(empty, []));
    SameRec(empty, [], []);
    SamePointer(p, q, Rec(empty, []), Rec(empty, []));
  }

  lemma ModeIs(p: nat, q: nat, v: S.ModeView, w: S.ModeView)
    ensures Typed(17, Mode(p, v)) && (Same(Mode(p, v), Mode(q, w)) <==> v == w)
  {
    hide Typed, Same, Replicated, Present, JobRef, Rec, NamedOf;
    var xs := [Replicated(p, v.Replicated), Present(p, 20, v.Global), JobRef(p, v.ReplicatedJob), Present(p, 25, v.GlobalJob)];
    var ys := [Replicated(q, w.Replicated), Present(q, 20, w.Global), JobRef(q, w.ReplicatedJob), Present(q, 25, w.GlobalJob)];
    ReplicatedIs(p, q, v.Replicated, w.Replicated);
    PresentIs(p, q, 19, 20, v.Global, w.Global);
    JobRefIs(p, q, v.ReplicatedJob, w.ReplicatedJob);
    PresentIs(p, q, 23, 25, v.GlobalJob, w.GlobalJob);
    TypedRec(17, xs);
    SameRec(17, xs, ys);
    hide FieldsOf, SpecType;
    assert (forall i :: 0 <= i < 4 ==> Same(xs[i], ys[i])) <==>
      Same(xs[0], ys[0]) && Same(xs[1], ys[1]) && Same(xs[2], ys[2]) && Same(xs[3], ys[3]);
  }

  lemma AnnotatedIs(p: nat, q: nat, v: S.SpecView, w: S.SpecView)
    ensures Typed(1, Annotated(p, v)) && (Same(Annotated(p, v), Annotated(q, w)) <==> v.Name == w.Name && v.Labels == w.Labels)
  {
    hide Typed, Same, Text, LabelMap, Rec, NamedOf;
    var xs, ys := [Text(v.Name), LabelMap(p, v.Labels)], [Text(w.Name), LabelMap(q, w.Labels)];
    TextIs(v.Name, w.Name);
    LabelsAre(p, q, v.Labels, w.Labels);
    TypedRec(1, xs);
    SameRec(1, xs, ys);
    hide FieldsOf, SpecType;
    assert (forall i :: 0 <= i < 2 ==> Same(xs[i], ys[i])) <==> Same(xs[0], ys[0]) && Same(xs[1], ys[1]);
  }

  lemma TaskIs(p: nat, q: nat, v: S.SpecView, w: S.SpecView)
    ensures Typed(4, Task(p, v)) && (Same(Task(p, v), Task(q, w)) <==> v.Container == w.Container && v.Task == w.Task)
  {
    hide Typed, Same, ContainerRef, Folded, Rec, NamedOf;
    var xs, ys := [ContainerRef(p, v.Container), Folded(p, v.Task)], [ContainerRef(q, w.Container), Folded(q, w.Task)];
    ContainerRefIs(p, q, v.Container, w.Container);
    FoldedIs(p, q, v.Task, w.Task);
    TypedRec(4, xs);
    SameRec(4, xs, ys);
    hide FieldsOf, SpecType;
    assert (forall i :: 0 <= i < 2 ==> Same(xs[i], ys[i])) <==> Same(xs[0], ys[0]) && Same(xs[1], ys[1]);
  }

  lemma SpecIs(p: nat, q: nat, v: S.SpecView, w: S.SpecView)
    ensures Typed(0, Encoded(p, v)) && (Same(Encoded(p, v), Encoded(q, w)) <==> v == w)
  {
    hide Typed, Same, Annotated, Task, Mode, Folded, Rec, NamedOf;
    var xs := [Annotated(p, v), Task(p, v), Mode(p, v.Mode), Folded(p, v.Other)];
    var ys := [Annotated(q, w), Task(q, w), Mode(q, w.Mode), Folded(q, w.Other)];
    AnnotatedIs(p, q, v, w);
    TaskIs(p, q, v, w);
    ModeIs(p, q, v.Mode, w.Mode);
    FoldedIs(p, q, v.Other, w.Other);
    TypedRec(0, xs);
    SameRec(0, xs, ys);
    hide FieldsOf, SpecType;
    assert (forall i :: 0 <= i < 4 ==> Same(xs[i], ys[i])) <==>
      Same(xs[0], ys[0]) && Same(xs[1], ys[1]) && Same(xs[2], ys[2]) && Same(xs[3], ys[3]);
  }

  /** An encoded spec has the root's type, and two of them compare equal exactly when they are the
      same spec, wherever their objects live. */
  lemma EncodedIs(p: nat, q: nat, v: S.SpecView, w: S.SpecView)
    ensures GraphOk(SpecGraph()) && 0 in SpecGraph() && HasType(SpecGraph(), 0, Encoded(p, v))
    ensures Compared(Encoded(p, v)) == Compared(Encoded(q, w)) <==> v == w
  {
    hide SpecGraph, Encoded, Compared, HasType, GraphOk;
    SpecIs(p, q, v, w);
  }

  // ---------------------------------------------------------------- the slice is generated

  /** Whatever program the generator leaves for the slice decides equality of specs, wherever their
      objects live and in any map iteration order. */
  lemma SliceDecidesSpecs(
      names: map<TypeId, nat>, P: Program, order: (Value, Value) -> seq<Key>, p: nat, q: nat, v: S.SpecView, w: S.SpecView)
    requires Finished(SpecGraph(), 0, names, P) && Fair(order)
    ensures Call(Machine(P, order), 0, Encoded(p, v), Encoded(q, w)) == Some(v == w)
  {
    hide Finished, Fair, Call, Compared, HasType, SpecGraph, Encoded, GraphOk;
    EncodedIs(p, q, v, w);
    EncodedIs(q, p, w, v);
    FinishedDecides(SpecGraph(), 0, names, P);
  }

  /** So EqualSpec on specs in memory returns what the generated program returns on their values. */
  method EqualSpecAsGenerated(
      a: S.ServiceSpec, b: S.ServiceSpec, ghost names: map<TypeId, nat>, ghost P: Program,
      ghost order: (Value, Value) -> seq<Key>, ghost p: nat, ghost q: nat)
    returns (same: bool)
    requires Finished(SpecGraph(), 0, names, P) && Fair(order)
    ensures Call(Machine(P, order), 0, Encoded(p, S.ViewOf(a)), Encoded(q, S.ViewOf(b))) == Some(same)
  {
    hide Finished, Fair, Call, SpecGraph, Encoded;
    same := EqualGenerated.EqualSpec(a, b);
    SliceDecidesSpecs(names, P, order, p, q, S.ViewOf(a), S.ViewOf(b));
  }
}
