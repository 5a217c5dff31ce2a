/** The Go fragment the generator emits, and what running it means. */
module GoFragment {
  import opened Basics
  import opened TypeGraph

  /** One line of an emitted function over parameters a and b; `f` numbers the callee equal<f>. */
  datatype Stmt =
    | ReturnIdentical                        // return a == b
    | IfNilReturnIdentical                   // if a == nil || b == nil { return a == b }
    | ReturnDeref(f: nat)                    // return f(*a, *b)
    | IfShapeDiffers                         // if (a == nil) != (b == nil) || len(a) != len(b) { return false }
    | ForIndexes(f: nat)                     // for i := range a { if !f(a[i], b[i]) { return false } }
    | ForEntries(f: nat)                     // for k, v := range a { other, ok := b[k]; if !ok || !f(v, other) { return false } }
    | IfFieldDiffers(f: nat, field: string)  // if !f(a.F, b.F) { return false }
    | ReturnTrue                             // return true

  /** A field of the anonymous struct in a schema guard; embedded fields have no name of their own. */
  datatype Mirror = Mirror(name: Option<string>, ty: TypeId, tag: string)

  datatype Decl =
    | Func(ty: TypeId, name: nat, stmts: seq<Stmt>)
    | Guard(ty: TypeId, mirror: seq<Mirror>)

  type Program = seq<Decl>

  function Lookup(P: Program, f: nat): Option<seq<Stmt>> {
    if P == [] then None
    else if P[0].Func? && P[0].name == f then Some(P[0].stmts)
    else Lookup(P[1..], f)
  }

  /** `order` picks the iteration order of a map each time two maps are compared. */
  datatype Machine = Machine(prog: Program, order: (Value, Value) -> seq<Key>)

  ghost predicate Fair(order: (Value, Value) -> seq<Key>) {
    forall a: Value, b: Value :: a.MapOf? ==> Enumerates(order(a, b), a.entries.Keys)
  }

  /** Go's == on the operands the emitted code applies it to; None where Go would not compile. */
  function Identical(a: Value, b: Value): Option<bool> {
    match (a, b)
    case (Scalar(x), Scalar(y)) => Some(x == y)
    case (NilPtr, NilPtr) => Some(true)
    case (NilPtr, Ptr(_, _)) => Some(false)
    case (Ptr(_, _), NilPtr) => Some(false)
    case (Ptr(x, _), Ptr(y, _)) => Some(x == y)
    case _ => None
  }

  /** Whether the shapes differ, for two slices or two maps. */
  function ShapeDiffers(a: Value, b: Value): Option<bool> {
    match (a, b)
    case (NilSlice, NilSlice) => Some(false)
    case (NilSlice, SliceOf(_, _)) => Some(true)
    case (SliceOf(_, _), NilSlice) => Some(true)
    case (SliceOf(_, x), SliceOf(_, y)) => Some(|x| != |y|)
    case (NilMap, NilMap) => Some(false)
    case (NilMap, MapOf(_, _)) => Some(true)
    case (MapOf(_, _), NilMap) => Some(true)
    case (MapOf(_, x), MapOf(_, y)) => Some(|x| != |y|)
    case _ => None
  }

  function Items(v: Value): Option<seq<Value>> {
    match v
    case NilSlice => Some([])
    case SliceOf(_, items) => Some(items)
    case ArrayOf(elems) => Some(elems)
    case _ => None
  }

  function Entries(v: Value): Option<map<Key, Entry>> {
    match v
    case NilMap => Some(map[])
    case MapOf(_, entries) => Some(entries)
    case _ => None
  }

  /** Some(r) when the call returns r; None when Go would panic or refuse to compile. */
  function Call(m: Machine, f: nat, a: Value, b: Value): Option<bool>
    decreases a, 2, 0
  {
    match Lookup(m.prog, f)
    case None => None
    case Some(stmts) => Exec(m, stmts, a, b)
  }

  function Exec(m: Machine, stmts: seq<Stmt>, a: Value, b: Value): Option<bool>
    decreases a, 1, |stmts|
  {
    if stmts == [] then None // a Go function must end in a return
    else match stmts[0]
      case ReturnIdentical => Identical(a, b)
      case ReturnTrue => Some(true)
      case IfNilReturnIdentical =>
        if !(a.NilPtr? || a.Ptr?) || !(b.NilPtr? || b.Ptr?) then None
        else if a.NilPtr? || b.NilPtr? then Identical(a, b)
        else Exec(m, stmts[1..], a, b)
      case ReturnDeref(f) =>
        if a.Ptr? && b.Ptr? then Call(m, f, a.pointee, b.pointee) else None
      case IfShapeDiffers =>
        (match ShapeDiffers(a, b)
         case None => None
         case Some(differs) => if differs then Some(false) else Exec(m, stmts[1..], a, b))
      case ForIndexes(f) =>
        if Items(a) == None || Items(b) == None then None
        else (match EveryIndex(m, f, a, b, 0)
              case None => None
              case Some(all) => if all then Exec(m, stmts[1..], a, b) else Some(false))
      case ForEntries(f) =>
        if Entries(a) == None || Entries(b) == None then None
        else (match EveryEntry(m, f, a, b, if a.MapOf? then m.order(a, b) else [])
              case None => None
              case Some(all) => if all then Exec(m, stmts[1..], a, b) else Some(false))
      case IfFieldDiffers(f, name) =>
        if !a.StructOf? || !b.StructOf? || name !in a.parts || name !in b.parts then None
        else (match Call(m, f, a.parts[name], b.parts[name])
              case None => None
              case Some(same) => if same then Exec(m, stmts[1..], a, b) else Some(false))
  }

  function EveryIndex(m: Machine, f: nat, a: Value, b: Value, i: nat): Option<bool>
    requires Items(a).Some? && Items(b).Some? && i <= |Items(a).value|
    decreases a, 0, |Items(a).value| - i
  {
    if i == |Items(a).value| then Some(true)
    else if i >= |Items(b).value| then None // index out of range
    else match Call(m, f, Items(a).value[i], Items(b).value[i])
      case None => None
      case Some(same) => if same then EveryIndex(m, f, a, b, i + 1) else Some(false)
  }

  function EveryEntry(m: Machine, f: nat, a: Value, b: Value, keys: seq<Key>): Option<bool>
    requires Entries(a).Some? && Entries(b).Some?
    decreases a, 0, |keys|
  {
    if keys == [] then Some(true)
    else if keys[0] !in Entries(a).value then None // ranging visits keys of a only
    else if keys[0] !in Entries(b).value then Some(false)
    else match Call(m, f, Entries(a).value[keys[0]].elem, Entries(b).value[keys[0]].elem)
      case None => None
      case Some(same) => if same then EveryEntry(m, f, a, b, keys[1..]) else Some(false)
  }
}
