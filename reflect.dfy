/**
 * Explicit type and value descriptors standing in for Go's reflect package:
 * what the copy engine reads about a struct type (its fields, their kinds,
 * names, tags and exportedness), the values it copies, reflect.Value.IsZero,
 * and the variable a pointer designates.
 */
module Reflect {
  import opened Wrappers

  /** reflect.Kind (without Invalid). A struct kind carries the struct's fields. */
  datatype Kind =
    | Bool
    | Int | Int8 | Int16 | Int32 | Int64
    | Uint | Uint8 | Uint16 | Uint32 | Uint64 | Uintptr
    | Float32 | Float64
    | Complex64 | Complex128
    | Array | Chan | Func | Interface | Map | Pointer | Slice | String
    | Struct(fields: seq<Field>)
    | UnsafePointer

  /** A type: the name reflect.Type.String() prints, and its kind. */
  datatype Type = Type(name: string, kind: Kind)

  /**
   * A struct field: its name, its type, the value of its `overwrite` tag key
   * (StructTag.Get, so "" when the key is absent) and whether it is exported.
   */
  datatype Field = Field(name: string, typ: Type, tag: string, exported: bool)

  /**
   * Values. Leaves are kept opaque: integers without their width, floating
   * point numbers and complex parts as raw bit patterns, and every reference
   * kind (chan, func, interface, pointer, unsafe pointer) as an address where
   * 0 is nil. A nil slice or map is None; an empty non-nil one is Some of an
   * empty collection.
   */
  datatype Value =
    | BoolV(b: bool)
    | IntV(i: int)
    | UintV(u: nat)
    | FloatV(bits: nat)
    | ComplexV(re: nat, im: nat)
    | StringV(s: string)
    | ArrayV(elems: seq<Value>)
    | SliceV(items: Option<seq<Value>>)
    | MapV(entries: Option<map<Value, Value>>)
    | StructV(fields: seq<Value>)
    | RefV(addr: nat)

  /** reflect.Value.IsZero: a value equal to its type's zero value. */
  predicate IsZero(v: Value)
  {
    match v
    case BoolV(b) => !b
    case IntV(i) => i == 0
    case UintV(u) => u == 0
    case FloatV(bits) => bits == 0
    case ComplexV(re, im) => re == 0 && im == 0
    case StringV(s) => |s| == 0
    case ArrayV(elems) => forall k :: 0 <= k < |elems| ==> IsZero(elems[k])
    case SliceV(items) => items.None?
    case MapV(entries) => entries.None?
    case StructV(fields) => forall k :: 0 <= k < |fields| ==> IsZero(fields[k])
    case RefV(addr) => addr == 0
  }

  /**
   * The zero value of the type `v` belongs to: every leaf zeroed, nil for
   * slices, maps and references, with the length of an array and the fields
   * of a struct kept (they are fixed by the type).
   */
  function ZeroLike(v: Value): Value
  {
    match v
    case BoolV(_) => BoolV(false)
    case IntV(_) => IntV(0)
    case UintV(_) => UintV(0)
    case FloatV(_) => FloatV(0)
    case ComplexV(_, _) => ComplexV(0, 0)
    case StringV(_) => StringV("")
    case ArrayV(elems) => ArrayV(seq(|elems|, k requires 0 <= k < |elems| => ZeroLike(elems[k])))
    case SliceV(_) => SliceV(None)
    case MapV(_) => MapV(None)
    case StructV(fields) => StructV(seq(|fields|, k requires 0 <= k < |fields| => ZeroLike(fields[k])))
    case RefV(_) => RefV(0)
  }

  /** IsZero holds exactly of the zero value of the value's own type. */
  lemma {:induction false} IsZeroIffZeroValue(v: Value)
    ensures IsZero(v) <==> v == ZeroLike(v)
  {
    match v
    case ArrayV(elems) =>
      forall k | 0 <= k < |elems| {
        IsZeroIffZeroValue(elems[k]);
      }
      if IsZero(v) {
        assert elems == ZeroLike(v).elems;
      }
      if v == ZeroLike(v) {
        forall k | 0 <= k < |elems| ensures IsZero(elems[k]) {
          assert elems[k] == ZeroLike(v).elems[k];
        }
      }
    case StructV(fields) =>
      forall k | 0 <= k < |fields| {
        IsZeroIffZeroValue(fields[k]);
      }
      if IsZero(v) {
        assert fields == ZeroLike(v).fields;
      }
      if v == ZeroLike(v) {
        forall k | 0 <= k < |fields| ensures IsZero(fields[k]) {
          assert fields[k] == ZeroLike(v).fields[k];
        }
      }
    case _ =>
  }

  /** The constructor of Value that holds the values of each kind. */
  datatype Shape = BoolS | IntS | UintS | FloatS | ComplexS | StringS | ArrayS | SliceS | MapS | StructS | RefS

  function ShapeOf(kind: Kind): Shape
  {
    match kind
    case Bool => BoolS
    case Int | Int8 | Int16 | Int32 | Int64 => IntS
    case Uint | Uint8 | Uint16 | Uint32 | Uint64 | Uintptr => UintS
    case Float32 | Float64 => FloatS
    case Complex64 | Complex128 => ComplexS
    case String => StringS
    case Array => ArrayS
    case Slice => SliceS
    case Map => MapS
    case Struct(_) => StructS
    case Chan | Func | Interface | Pointer | UnsafePointer => RefS
  }

  function ShapeOfValue(v: Value): Shape
  {
    match v
    case BoolV(_) => BoolS
    case IntV(_) => IntS
    case UintV(_) => UintS
    case FloatV(_) => FloatS
    case ComplexV(_, _) => ComplexS
    case StringV(_) => StringS
    case ArrayV(_) => ArrayS
    case SliceV(_) => SliceS
    case MapV(_) => MapS
    case StructV(_) => StructS
    case RefV(_) => RefS
  }

  /** The value has the shape its type describes (Go's static typing). */
  predicate Conforms(v: Value, t: Type)
    decreases t
  {
    && ShapeOfValue(v) == ShapeOf(t.kind)
    && (t.kind.Struct? ==>
          v.StructV? && |v.fields| == |t.kind.fields| &&
          forall k :: 0 <= k < |t.kind.fields| ==> Conforms(v.fields[k], t.kind.fields[k].typ))
  }

  /** Replacing one field of a struct by a value of that field's type keeps its shape. */
  lemma ConformsUpdate(v: Value, t: Type, k: nat, x: Value)
    requires t.kind.Struct? && Conforms(v, t) && k < |t.kind.fields|
    requires Conforms(x, t.kind.fields[k].typ)
    ensures v.StructV? && k < |v.fields|
    ensures Conforms(v.(fields := v.fields[k := x]), t)
  {
  }

  /**
   * What the Go compiler guarantees of a struct type, at every level: two
   * fields share a name only if neither is exported (repeated `_` fields).
   */
  predicate WellFormed(t: Type)
    decreases t
  {
    t.kind.Struct? ==>
      var fs := t.kind.fields;
      (forall a, b :: 0 <= a < b < |fs| && fs[a].name == fs[b].name ==>
         !fs[a].exported && !fs[b].exported)
      && forall k :: 0 <= k < |fs| ==> WellFormed(fs[k].typ)
  }

  /** Index of the first field in `fs[from..]` called `name`. */
  function FieldIndex(fs: seq<Field>, name: string, from: nat): (r: Option<nat>)
    requires from <= |fs|
    ensures r.Some? ==> from <= r.value < |fs| && fs[r.value].name == name
                        && forall j :: from <= j < r.value ==> fs[j].name != name
    ensures r.None? ==> forall j :: from <= j < |fs| ==> fs[j].name != name
    decreases |fs| - from
  {
    if from == |fs| then None
    else if fs[from].name == name then Some(from)
    else FieldIndex(fs, name, from + 1)
  }

  /** reflect.Value.FieldByName on a struct, as the index of the field found. */
  function FieldByName(t: Type, name: string): (r: Option<nat>)
    requires t.kind.Struct?
    ensures r.Some? ==> r.value < |t.kind.fields| && t.kind.fields[r.value].name == name
  {
    FieldIndex(t.kind.fields, name, 0)
  }

  /** In a well-formed struct an exported field is the one its name finds. */
  lemma ExportedFoundByName(t: Type, k: nat)
    requires t.kind.Struct? && WellFormed(t) && k < |t.kind.fields|
    requires t.kind.fields[k].exported
    ensures FieldByName(t, t.kind.fields[k].name) == Some(k)
  {
    var fs := t.kind.fields;
    var r := FieldIndex(fs, fs[k].name, 0);
    assert r.Some?;
  }

  /** `path` names a chain of struct fields inside `v`. */
  predicate ValidPath(v: Value, path: seq<nat>)
    decreases |path|
  {
    |path| == 0 ||
    (v.StructV? && path[0] < |v.fields| && ValidPath(v.fields[path[0]], path[1..]))
  }

  /** The value reached by following `path` (what an interior pointer designates). */
  function At(v: Value, path: seq<nat>): Value
    requires ValidPath(v, path)
    decreases |path|
  {
    if |path| == 0 then v else At(v.fields[path[0]], path[1..])
  }

  /** `v` with the value at `path` replaced by `x`, and nothing else changed. */
  function SetAt(v: Value, path: seq<nat>, x: Value): (r: Value)
    requires ValidPath(v, path)
    ensures ValidPath(r, path) && At(r, path) == x
    decreases |path|
  {
    if |path| == 0 then x
    else v.(fields := v.fields[path[0] := SetAt(v.fields[path[0]], path[1..], x)])
  }

  /** Two paths that part at some index: neither is a prefix of the other. */
  predicate Diverge(p: seq<nat>, q: seq<nat>)
    decreases |p|
  {
    |p| > 0 && |q| > 0 && (p[0] != q[0] || Diverge(p[1..], q[1..]))
  }

  /** Writing at one path leaves the value at every diverging path as it was. */
  lemma {:induction false} SetAtElsewhere(v: Value, p: seq<nat>, q: seq<nat>, x: Value)
    requires ValidPath(v, p) && ValidPath(v, q) && Diverge(p, q)
    ensures ValidPath(SetAt(v, p, x), q) && At(SetAt(v, p, x), q) == At(v, q)
    decreases |p|
  {
    var r := SetAt(v, p, x);
    if p[0] != q[0] {
      assert r.fields[q[0]] == v.fields[q[0]];
    } else {
      SetAtElsewhere(v.fields[p[0]], p[1..], q[1..], x);
    }
  }

  /** Writing back what is already there changes nothing. */
  lemma {:induction false} SetAtSame(v: Value, path: seq<nat>)
    requires ValidPath(v, path)
    ensures SetAt(v, path, At(v, path)) == v
    decreases |path|
  {
    if |path| > 0 {
      SetAtSame(v.fields[path[0]], path[1..]);
    }
  }

  /** A later write at the same place overrides an earlier one. */
  lemma {:induction false} SetAtTwice(v: Value, path: seq<nat>, x: Value, y: Value)
    requires ValidPath(v, path)
    ensures SetAt(SetAt(v, path, x), path, y) == SetAt(v, path, y)
    decreases |path|
  {
    if |path| > 0 {
      SetAtTwice(v.fields[path[0]], path[1..], x, y);
    }
  }

  /** A path one field longer than a path into a struct. */
  lemma {:induction false} ValidPathExtend(v: Value, path: seq<nat>, j: nat)
    requires ValidPath(v, path)
    ensures ValidPath(v, path + [j]) <==> At(v, path).StructV? && j < |At(v, path).fields|
    ensures ValidPath(v, path + [j]) ==> At(v, path + [j]) == At(v, path).fields[j]
    decreases |path|
  {
    if |path| > 0 {
      assert (path + [j])[1..] == path[1..] + [j];
      ValidPathExtend(v.fields[path[0]], path[1..], j);
    }
  }

  /** Writing one field of the struct at `path` is writing that whole struct. */
  lemma {:induction false} SetAtExtend(v: Value, path: seq<nat>, j: nat, x: Value)
    requires ValidPath(v, path + [j])
    ensures ValidPath(v, path) && At(v, path).StructV? && j < |At(v, path).fields|
    ensures SetAt(v, path + [j], x) ==
            SetAt(v, path, At(v, path).(fields := At(v, path).fields[j := x]))
    decreases |path|
  {
    if |path| == 0 {
      assert path + [j] == [j];
    } else {
      assert (path + [j])[1..] == path[1..] + [j];
      SetAtExtend(v.fields[path[0]], path[1..], j, x);
    }
  }

  /** A Go variable holding a value: what a pointer points to. */
  class Cell {
    var val: Value

    constructor (v: Value)
      ensures val == v
    {
      val := v;
    }
  }
}
