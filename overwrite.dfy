/**
 * The copy engine of package overwrite (do.go): Do copies the tagged fields
 * of a source struct into the struct a destination pointer points to, field
 * by field in declaration order, recursing into the first struct-kind field.
 */
module Overwrite {
  import opened Wrappers
  import opened Reflect
  import Tags

  /** The error sentinels of do.go and tag.go, as the kinds of error Do returns. */
  datatype ErrorKind =
    | NotSameType
    | SrcNil
    | DstNil
    | DstNotPtr
    | SrcNotStruct
    | CannotSetField
    | TagValueWrong(fault: Tags.TagFault)

  /**
   * An `interface{}` argument: nil, a pointer (to the variable `cell`, or to
   * the struct field `path` leads to inside it, with pointee type `elem`), or
   * any other value together with its dynamic type. A non-nil pointer is
   * always written as Ptr.
   */
  datatype Iface =
    | Nil
    | Ptr(cell: Cell, path: seq<nat>, elem: Type)
    | Plain(typ: Type, val: Value)
  {
    /** A pointer's dynamic type is always a pointer kind. */
    predicate WellTyped()
    {
      Plain? ==> !typ.kind.Pointer?
    }

    /** reflect.TypeOf(x).Kind() == reflect.Struct */
    predicate IsStruct()
    {
      Plain? && typ.kind.Struct?
    }
  }

  /**
   * checkInput: the argument checks of Do, in their fixed order; the first
   * one that fails decides the error. Types are compared by printed name.
   */
  function CheckInput(dst: Iface, src: Iface): (r: Option<ErrorKind>)
    requires dst.WellTyped()
    ensures r == None <==> dst.Ptr? && src.IsStruct() && dst.elem.name == src.typ.name
    ensures r == Some(DstNil) <==> dst.Nil?
    ensures r == Some(SrcNil) <==> !dst.Nil? && src.Nil?
    ensures r == Some(DstNotPtr) <==> dst.Plain? && !src.Nil?
    ensures r == Some(SrcNotStruct) <==> dst.Ptr? && !src.Nil? && !src.IsStruct()
    ensures r == Some(NotSameType) <==> dst.Ptr? && src.IsStruct() && dst.elem.name != src.typ.name
  {
    if dst.Nil? then Some(DstNil)
    else if src.Nil? then Some(SrcNil)
    else if !dst.Ptr? then Some(DstNotPtr)
    else if !src.IsStruct() then Some(SrcNotStruct)
    else if dst.elem.name != src.typ.name then Some(NotSameType)
    else None
  }

  /** checkSupportedKind: the kinds whose fields Do may copy. */
  predicate CheckSupportedKind(kind: Kind)
    ensures CheckSupportedKind(kind) <==>
              !(kind.Struct? || kind.Chan? || kind.Func? || kind.Interface? || kind.Pointer?
                || kind.UnsafePointer? || kind.Complex64? || kind.Complex128? || kind.Uintptr?)
  {
    || kind.String? || kind.Bool? || kind.Slice? || kind.Array? || kind.Map?
    || kind.Uint? || kind.Uint8? || kind.Uint16? || kind.Uint32? || kind.Uint64?
    || kind.Int? || kind.Int8? || kind.Int16? || kind.Int32? || kind.Int64?
    || kind.Float32? || kind.Float64?
  }

  /**
   * checkCanSet: the field `name` of the struct the destination points to
   * exists and can be set. It is addressable, being reached through a pointer,
   * so it can be set exactly when it is exported.
   */
  function CheckCanSet(t: Type, name: string): (r: Option<ErrorKind>)
    requires t.kind.Struct?
    ensures r.Some? ==> r == Some(CannotSetField)
  {
    match FieldByName(t, name)
    case None => Some(CannotSetField)
    case Some(j) => if t.kind.fields[j].exported then None else Some(CannotSetField)
  }


  /** In a well-formed struct a field can be set exactly when it is exported. */
  lemma CanSetIffExported(t: Type, k: nat)
    requires t.kind.Struct? && WellFormed(t) && k < |t.kind.fields|
    ensures CheckCanSet(t, t.kind.fields[k].name).None? <==> t.kind.fields[k].exported
    ensures t.kind.fields[k].exported ==> FieldByName(t, t.kind.fields[k].name) == Some(k)
  {
    if t.kind.fields[k].exported {
      ExportedFoundByName(t, k);
    }
  }

  /** What Do's loop does with one field. */
  datatype Verdict =
    | Descend            // a struct field: recurse into it and return
    | Pass               // leave the field alone and go on
    | Abort(error: ErrorKind)
    | Copy               // copy the source value into the field and go on

  /**
   * The checks Do's loop makes on field `i` of `t`, in their order, given the
   * source value `sk` of that field.
   */
  function Visit(t: Type, i: nat, sk: Value): (r: Verdict)
    requires t.kind.Struct? && i < |t.kind.fields|
    ensures r == Descend <==> t.kind.fields[i].typ.kind.Struct?
    ensures r == Copy ==> CheckCanSet(t, t.kind.fields[i].name).None?
  {
    var f := t.kind.fields[i];
    if f.typ.kind.Struct? then Descend
    else if !CheckSupportedKind(f.typ.kind) then Pass
    else
      match Tags.NewTags(f.tag)
      case Err(e) => Abort(TagValueWrong(e))
      case Ok(tag) =>
        if !tag.overwrite then Pass
        else if CheckCanSet(t, f.name).Some? then Abort(CheckCanSet(t, f.name).value)
        else if tag.omitempty && IsZero(sk) then Pass
        else Copy
  }

  /**
   * What the walk over the fields of `t`, from field `i` on, does to the
   * destination struct `d` given the source struct `s`: the new destination
   * value and the error Do returns (None for nil). This is the loop of Do,
   * with the recursive call for a struct field taken as the result of the
   * whole walk.
   */
  function ApplyFrom(t: Type, d: Value, s: Value, i: nat): (r: (Value, Option<ErrorKind>))
    requires t.kind.Struct? && WellFormed(t) && Conforms(d, t) && Conforms(s, t)
    requires i <= |t.kind.fields|
    ensures Conforms(r.0, t)
    decreases t, |t.kind.fields| - i
  {
    var fs := t.kind.fields;
    if i == |fs| then (d, None)
    else
      match Visit(t, i, s.fields[i])
      case Descend =>
        var nested := ApplyFrom(fs[i].typ, d.fields[i], s.fields[i], 0);
        ConformsUpdate(d, t, i, nested.0);
        (d.(fields := d.fields[i := nested.0]), nested.1)
      case Pass => ApplyFrom(t, d, s, i + 1)
      case Abort(e) => (d, Some(e))
      case Copy =>
        // The field found by name is field i itself.
        CanSetIffExported(t, i);
        var j := FieldByName(t, fs[i].name).value;
        ConformsUpdate(d, t, j, s.fields[i]);
        ApplyFrom(t, d.(fields := d.fields[j := s.fields[i]]), s, i + 1)
  }

  /** The whole walk over the fields of `t`. */
  function Apply(t: Type, d: Value, s: Value): (r: (Value, Option<ErrorKind>))
    requires t.kind.Struct? && WellFormed(t) && Conforms(d, t) && Conforms(s, t)
    ensures Conforms(r.0, t)
  {
    ApplyFrom(t, d, s, 0)
  }

  /**
   * Why visiting the non-struct field `k` of `t` aborts the walk, if it does:
   * a malformed tag on a supported field, or an eligible field that cannot be
   * set. It depends on the type alone.
   */
  function FieldFault(t: Type, k: nat): Option<ErrorKind>
    requires t.kind.Struct? && k < |t.kind.fields|
  {
    var f := t.kind.fields[k];
    if f.typ.kind.Struct? || !CheckSupportedKind(f.typ.kind) then None
    else
      match Tags.NewTags(f.tag)
      case Err(e) => Some(TagValueWrong(e))
      case Ok(tag) => if tag.overwrite then CheckCanSet(t, f.name) else None
  }

  /**
   * The first field at or after `i` where the walk over `t` ends early: a
   * struct field, into which it recurses, or a field that aborts it.
   */
  function Stop(t: Type, i: nat): (r: nat)
    requires t.kind.Struct? && i <= |t.kind.fields|
    ensures i <= r <= |t.kind.fields|
    ensures forall k :: i <= k < r ==>
              !t.kind.fields[k].typ.kind.Struct? && FieldFault(t, k).None?
    ensures r < |t.kind.fields| ==>
              t.kind.fields[r].typ.kind.Struct? || FieldFault(t, r).Some?
    decreases |t.kind.fields| - i
  {
    if i == |t.kind.fields| then i
    else if t.kind.fields[i].typ.kind.Struct? || FieldFault(t, i).Some? then i
    else Stop(t, i + 1)
  }

  /**
   * The walk never reaches an unexported struct field: at every level, the
   * struct field it recurses into (if it gets that far) is exported. Go
   * panics on the recursive call otherwise (`Interface()` on an unexported
   * field).
   */
  predicate DescendsOnlyExported(t: Type)
    decreases t
  {
    t.kind.Struct? ==>
      var k := Stop(t, 0);
      k < |t.kind.fields| && t.kind.fields[k].typ.kind.Struct? ==>
        t.kind.fields[k].exported && DescendsOnlyExported(t.kind.fields[k].typ)
  }

  /**
   * The value a visited non-struct field ends with: the source value when the
   * field is supported, tagged true, and not skipped by omitempty; otherwise
   * the destination value it had.
   */
  function LeafValue(f: Field, dk: Value, sk: Value): Value
  {
    if !CheckSupportedKind(f.typ.kind) then dk
    else
      match Tags.NewTags(f.tag)
      case Err(_) => dk
      case Ok(tag) => if tag.overwrite && !(tag.omitempty && IsZero(sk)) then sk else dk
  }

  /**
   * The fields of `cur` after Do's loop has visited the fields before `i` of
   * the struct `d0` it started from: each of those holds what the rules give
   * it, and the fields from `i` on are untouched.
   */
  ghost predicate Visited(t: Type, d0: Value, cur: Value, s: Value, i: nat)
    requires t.kind.Struct? && Conforms(d0, t) && Conforms(s, t)
  {
    var fs := t.kind.fields;
    && i <= |fs| && Conforms(cur, t)
    && (forall k :: 0 <= k < i ==> cur.fields[k] == LeafValue(fs[k], d0.fields[k], s.fields[k]))
    && (forall k :: i <= k < |fs| ==> cur.fields[k] == d0.fields[k])
  }

  /** A field the loop passes over: nothing changes and the walk goes on. */
  lemma PassStep(t: Type, d0: Value, cur: Value, s: Value, i: nat)
    requires t.kind.Struct? && WellFormed(t) && Conforms(d0, t) && Conforms(s, t)
    requires Visited(t, d0, cur, s, i)
    requires i < |t.kind.fields| && Visit(t, i, s.fields[i]) == Pass
    ensures Visited(t, d0, cur, s, i + 1)
    ensures Stop(t, i) == Stop(t, i + 1)
    ensures ApplyFrom(t, cur, s, i) == ApplyFrom(t, cur, s, i + 1)
  {
  }

  /** A field the loop copies: the source value lands in that field alone. */
  lemma CopyStep(t: Type, d0: Value, cur: Value, s: Value, i: nat,
                 whole0: Value, path: seq<nat>, whole: Value)
    requires t.kind.Struct? && WellFormed(t) && Conforms(d0, t) && Conforms(s, t)
    requires Visited(t, d0, cur, s, i)
    requires i < |t.kind.fields| && Visit(t, i, s.fields[i]) == Copy
    requires ValidPath(whole0, path) && whole == SetAt(whole0, path, cur)
    ensures FieldByName(t, t.kind.fields[i].name) == Some(i)
    ensures var next := cur.(fields := cur.fields[i := s.fields[i]]);
            && ValidPath(whole, path + [i])
            && SetAt(whole, path + [i], s.fields[i]) == SetAt(whole0, path, next)
            && Visited(t, d0, next, s, i + 1) && Stop(t, i) == Stop(t, i + 1)
            && ApplyFrom(t, cur, s, i) == ApplyFrom(t, next, s, i + 1)
  {
    CanSetIffExported(t, i);
    ValidPathExtend(whole, path, i);
    SetAtExtend(whole, path, i, s.fields[i]);
    SetAtTwice(whole0, path, cur, cur.(fields := cur.fields[i := s.fields[i]]));
  }

  /** The struct field the walk recurses into has a type Do accepts. */
  lemma DescendType(t: Type, i: nat)
    requires t.kind.Struct? && WellFormed(t) && DescendsOnlyExported(t)
    requires i < |t.kind.fields| && t.kind.fields[i].typ.kind.Struct?
    requires Stop(t, 0) == Stop(t, i)
    ensures WellFormed(t.kind.fields[i].typ) && DescendsOnlyExported(t.kind.fields[i].typ)
  {
    assert Stop(t, 0) == i;
  }

  /** What the recursive call on the struct field `i` needs. */
  lemma DescendStep(t: Type, cur: Value, s: Value, i: nat,
                    whole0: Value, path: seq<nat>, whole: Value)
    requires t.kind.Struct? && WellFormed(t) && DescendsOnlyExported(t)
    requires Conforms(cur, t) && Conforms(s, t)
    requires i < |t.kind.fields| && t.kind.fields[i].typ.kind.Struct?
    requires Stop(t, 0) == Stop(t, i)
    requires ValidPath(whole0, path) && whole == SetAt(whole0, path, cur)
    ensures var ft := t.kind.fields[i].typ;
            && ValidPath(whole, path + [i]) && At(whole, path + [i]) == cur.fields[i]
            && Conforms(cur.fields[i], ft) && Conforms(s.fields[i], ft)
            && WellFormed(ft) && DescendsOnlyExported(ft)
  {
    DescendType(t, i);
    assert ValidPath(whole, path) && At(whole, path) == cur;
    ValidPathExtend(whole, path, i);
  }

  /** The recursive call on a struct field completes the walk at this level. */
  lemma RecursionStep(t: Type, cur: Value, s: Value, i: nat,
                      whole0: Value, path: seq<nat>, before: Value, after: Value)
    requires t.kind.Struct? && WellFormed(t) && Conforms(cur, t) && Conforms(s, t)
    requires i < |t.kind.fields| && t.kind.fields[i].typ.kind.Struct?
    requires ValidPath(whole0, path) && before == SetAt(whole0, path, cur)
    requires ValidPath(before, path + [i]) && At(before, path + [i]) == cur.fields[i]
    requires after == SetAt(before, path + [i],
                            Apply(t.kind.fields[i].typ, cur.fields[i], s.fields[i]).0)
    ensures after == SetAt(whole0, path, ApplyFrom(t, cur, s, i).0)
    ensures ApplyFrom(t, cur, s, i).1 ==
            Apply(t.kind.fields[i].typ, cur.fields[i], s.fields[i]).1
  {
    ValidPathExtend(before, path, i);
    var nested := Apply(t.kind.fields[i].typ, cur.fields[i], s.fields[i]);
    SetAtExtend(before, path, i, nested.0);
    SetAtTwice(whole0, path, cur, cur.(fields := cur.fields[i := nested.0]));
  }

  /**
   * Do: copy the eligible fields of `src` into the struct `dst` points to.
   * Writes go straight into the destination variable, one field at a time,
   * and are not undone when a later field fails.
   */
  method Do(dst: Iface, src: Iface) returns (err: Option<ErrorKind>)
    requires dst.WellTyped()
    requires dst.Ptr? ==> ValidPath(dst.cell.val, dst.path)
                          && Conforms(At(dst.cell.val, dst.path), dst.elem)
    requires src.Plain? ==> Conforms(src.val, src.typ)
    // Go's reflection panics outside these; see "Left out" in README.md.
    requires CheckInput(dst, src).None? ==>
               dst.elem == src.typ && WellFormed(src.typ) && DescendsOnlyExported(src.typ)
    modifies if dst.Ptr? then {dst.cell} else {}
    decreases if src.Plain? then src.typ else Type("", Bool), 2
    ensures CheckInput(dst, src).Some? ==> err == CheckInput(dst, src)
    ensures CheckInput(dst, src).Some? && dst.Ptr? ==> dst.cell.val == old(dst.cell.val)
    ensures CheckInput(dst, src).None? ==>
              var r := Apply(src.typ, At(old(dst.cell.val), dst.path), src.val);
              err == r.1 && dst.cell.val == SetAt(old(dst.cell.val), dst.path, r.0)
  {
    err := CheckInput(dst, src);
    if err.Some? {
      return;
    }
    err := CopyFields(dst.cell, dst.path, src.typ, src.val);
  }

  /**
   * The loop of Do over the fields of the struct type `t`, on the struct at
   * `path` in `cell` and the source struct `sv`.
   */
  method CopyFields(cell: Cell, path: seq<nat>, t: Type, sv: Value) returns (err: Option<ErrorKind>)
    requires t.kind.Struct? && WellFormed(t) && DescendsOnlyExported(t)
    requires ValidPath(cell.val, path) && Conforms(At(cell.val, path), t) && Conforms(sv, t)
    modifies cell
    decreases t, 1
    ensures var r := Apply(t, At(old(cell.val), path), sv);
            err == r.1 && cell.val == SetAt(old(cell.val), path, r.0)
  {
    var fs := t.kind.fields;
    ghost var whole0 := cell.val;
    ghost var d0 := At(whole0, path);
    ghost var cur := d0;
    SetAtSame(whole0, path);

    var i := 0;
    while i < |fs|
      invariant cell.val == SetAt(whole0, path, cur)
      invariant i <= |fs| && Conforms(cur, t)
      // fields before i have followed the rules, fields from i on are untouched
      invariant Visited(t, d0, cur, sv, i)
      // the walk went on past every field before i
      invariant Stop(t, 0) == Stop(t, i)
      // what is left of the walk leads to the same result
      invariant ApplyFrom(t, cur, sv, i) == Apply(t, d0, sv)
    {
      var field := fs[i];
      match Visit(t, i, sv.fields[i])
      case Descend =>
        err := DescendInto(cell, path, t, sv, i, whole0, cur);
        return;
      case Abort(e) =>
        err := Some(e);
        return;
      case Pass =>
        PassStep(t, d0, cur, sv, i);
        i := i + 1;
      case Copy =>
        CopyStep(t, d0, cur, sv, i, whole0, path, cell.val);
        var j := FieldByName(t, field.name).value;
        cell.val := SetAt(cell.val, path + [j], sv.fields[i]);
        cur := cur.(fields := cur.fields[i := sv.fields[i]]);
        i := i + 1;
    }
    err := None;
  }

  /**
   * The struct field `i` of the struct at `path` in `cell`: Do calls itself
   * with a pointer to that field and the source field's value, and returns
   * what that call returns.
   */
  method DescendInto(cell: Cell, path: seq<nat>, t: Type, sv: Value, i: nat,
                     ghost whole0: Value, ghost cur: Value)
    returns (err: Option<ErrorKind>)
    requires t.kind.Struct? && WellFormed(t) && DescendsOnlyExported(t)
    requires Conforms(cur, t) && Conforms(sv, t) && ValidPath(whole0, path)
    requires i < |t.kind.fields| && t.kind.fields[i].typ.kind.Struct?
    requires cell.val == SetAt(whole0, path, cur) && Stop(t, 0) == Stop(t, i)
    modifies cell
    decreases t, 0
    ensures err == ApplyFrom(t, cur, sv, i).1
    ensures cell.val == SetAt(whole0, path, ApplyFrom(t, cur, sv, i).0)
  {
    var field := t.kind.fields[i];
    ghost var before := cell.val;
    DescendStep(t, cur, sv, i, whole0, path, before);
    var fieldDst := Ptr(cell, path + [i], field.typ);
    var fieldSrc := Plain(field.typ, sv.fields[i]);
    assert CheckInput(fieldDst, fieldSrc) == None;
    err := Do(fieldDst, fieldSrc);
    RecursionStep(t, cur, sv, i, whole0, path, before, cell.val);
  }
}
