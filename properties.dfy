/**
 * What a call of Do does to each field, and the properties that follow:
 * which fields keep their value, which take the source's, where the walk
 * stops, what decides the error, and that a second call changes nothing.
 * Do's postcondition states its effect as Apply, so these lemmas about
 * Apply are statements about Do.
 */
module OverwriteProperties {
  import opened Wrappers
  import opened Reflect
  import Tags
  import opened Overwrite

  /** The verdict on a field against the rules for that field. */
  lemma VisitRules(t: Type, k: nat, dk: Value, sk: Value)
    requires t.kind.Struct? && k < |t.kind.fields|
    ensures Visit(t, k, sk).Abort? <==> FieldFault(t, k).Some?
    ensures Visit(t, k, sk).Abort? ==> FieldFault(t, k) == Some(Visit(t, k, sk).error)
    ensures Visit(t, k, sk) == Pass ==> LeafValue(t.kind.fields[k], dk, sk) == dk
    ensures Visit(t, k, sk) == Copy ==> LeafValue(t.kind.fields[k], dk, sk) == sk
  {
  }

  /**
   * The walk over `t` from field `i` on, described field by field rather than
   * step by step. With p the first field at or after `i` that is a struct or
   * aborts: the fields before `i` and after p keep their value; those from `i`
   * up to p end as the rules give them; and p decides the error: the recursive
   * call's on a struct field, which also gives p its value, the fault of any
   * other field, which keeps its value, or nil when there is no such field.
   */
  ghost function Fieldwise(t: Type, d: Value, s: Value, i: nat): (Value, Option<ErrorKind>)
    requires t.kind.Struct? && WellFormed(t) && Conforms(d, t) && Conforms(s, t)
    requires i <= |t.kind.fields|
  {
    var fs := t.kind.fields;
    var p := Stop(t, i);
    var fields := seq(|fs|, k requires 0 <= k < |fs| =>
      if k < i || p < k then d.fields[k]
      else if k < p then LeafValue(fs[k], d.fields[k], s.fields[k])
      else if fs[p].typ.kind.Struct? then Apply(fs[p].typ, d.fields[p], s.fields[p]).0
      else d.fields[p]);
    var err :=
      if p == |fs| then None
      else if fs[p].typ.kind.Struct? then Apply(fs[p].typ, d.fields[p], s.fields[p]).1
      else FieldFault(t, p);
    (StructV(fields), err)
  }

  /** The walk at this level ends at `i` when every field before it passes and `i` does not. */
  lemma {:induction false} StopAt(t: Type, from: nat, i: nat)
    requires t.kind.Struct? && from <= i <= |t.kind.fields|
    requires forall k :: from <= k < i ==>
               !t.kind.fields[k].typ.kind.Struct? && FieldFault(t, k).None?
    requires i < |t.kind.fields| ==> t.kind.fields[i].typ.kind.Struct? || FieldFault(t, i).Some?
    ensures Stop(t, from) == i
    decreases i - from
  {
    if from < i {
      StopAt(t, from + 1, i);
    }
  }

  /** No field left: nothing changes and the error is nil. */
  lemma EndShape(t: Type, d: Value, s: Value)
    requires t.kind.Struct? && WellFormed(t) && Conforms(d, t) && Conforms(s, t)
    ensures ApplyFrom(t, d, s, |t.kind.fields|) == Fieldwise(t, d, s, |t.kind.fields|)
  {
    assert Fieldwise(t, d, s, |t.kind.fields|).0.fields == d.fields;
  }

  /** A struct field: it takes the recursive call's value and error. */
  lemma DescendShape(t: Type, d: Value, s: Value, i: nat)
    requires t.kind.Struct? && WellFormed(t) && Conforms(d, t) && Conforms(s, t)
    requires i < |t.kind.fields| && Visit(t, i, s.fields[i]) == Descend
    ensures ApplyFrom(t, d, s, i) == Fieldwise(t, d, s, i)
  {
    assert Stop(t, i) == i;
    var nested := Apply(t.kind.fields[i].typ, d.fields[i], s.fields[i]);
    assert Fieldwise(t, d, s, i).0.fields == d.fields[i := nested.0];
  }

  /** A field that aborts: nothing changes and its fault is the error. */
  lemma AbortShape(t: Type, d: Value, s: Value, i: nat)
    requires t.kind.Struct? && WellFormed(t) && Conforms(d, t) && Conforms(s, t)
    requires i < |t.kind.fields| && Visit(t, i, s.fields[i]).Abort?
    ensures ApplyFrom(t, d, s, i) == Fieldwise(t, d, s, i)
  {
    VisitRules(t, i, d.fields[i], s.fields[i]);
    assert Stop(t, i) == i;
    assert Fieldwise(t, d, s, i).0.fields == d.fields;
  }

  /** A field passed over keeps its value, which is what the rules give it. */
  lemma PassShape(t: Type, d: Value, s: Value, i: nat)
    requires t.kind.Struct? && WellFormed(t) && Conforms(d, t) && Conforms(s, t)
    requires i < |t.kind.fields| && Visit(t, i, s.fields[i]) == Pass
    requires ApplyFrom(t, d, s, i + 1) == Fieldwise(t, d, s, i + 1)
    ensures ApplyFrom(t, d, s, i) == Fieldwise(t, d, s, i)
  {
    VisitRules(t, i, d.fields[i], s.fields[i]);
    assert Stop(t, i) == Stop(t, i + 1);
    assert Fieldwise(t, d, s, i).0.fields == Fieldwise(t, d, s, i + 1).0.fields;
  }

  /** A field copied takes the source value, which is what the rules give it. */
  lemma CopyShape(t: Type, d: Value, s: Value, i: nat, d': Value)
    requires t.kind.Struct? && WellFormed(t) && Conforms(d, t) && Conforms(s, t)
    requires i < |t.kind.fields| && Visit(t, i, s.fields[i]) == Copy
    requires d' == d.(fields := d.fields[i := s.fields[i]]) && Conforms(d', t)
    requires ApplyFrom(t, d', s, i + 1) == Fieldwise(t, d', s, i + 1)
    ensures ApplyFrom(t, d, s, i) == Fieldwise(t, d, s, i)
  {
    VisitRules(t, i, d.fields[i], s.fields[i]);
    CanSetIffExported(t, i);
    assert Stop(t, i) == Stop(t, i + 1);
    assert Fieldwise(t, d, s, i).0.fields == Fieldwise(t, d', s, i + 1).0.fields;
  }

  /** The walk from field `i` on ends as Fieldwise describes. */
  lemma {:induction false} ApplyFromFieldwise(t: Type, d: Value, s: Value, i: nat)
    requires t.kind.Struct? && WellFormed(t) && Conforms(d, t) && Conforms(s, t)
    requires i <= |t.kind.fields|
    ensures ApplyFrom(t, d, s, i) == Fieldwise(t, d, s, i)
    decreases |t.kind.fields| - i
  {
    if i == |t.kind.fields| {
      EndShape(t, d, s);
    } else {
      match Visit(t, i, s.fields[i])
      case Descend => DescendShape(t, d, s, i);
      case Abort(_) => AbortShape(t, d, s, i);
      case Pass =>
        ApplyFromFieldwise(t, d, s, i + 1);
        PassShape(t, d, s, i);
      case Copy =>
        var d' := d.(fields := d.fields[i := s.fields[i]]);
        ConformsUpdate(d, t, i, s.fields[i]);
        ApplyFromFieldwise(t, d', s, i + 1);
        CopyShape(t, d, s, i, d');
    }
  }

  /** The whole walk, field by field. */
  lemma ApplyFieldwise(t: Type, d: Value, s: Value)
    requires t.kind.Struct? && WellFormed(t) && Conforms(d, t) && Conforms(s, t)
    ensures Apply(t, d, s) == Fieldwise(t, d, s, 0)
  {
    ApplyFromFieldwise(t, d, s, 0);
  }

  /**
   * A field of unsupported kind, or of supported kind whose tag does not say
   * true (absent, "false", ...), keeps its value whatever the source holds.
   */
  lemma UntaggedFieldKept(t: Type, d: Value, s: Value, k: nat)
    requires t.kind.Struct? && WellFormed(t) && Conforms(d, t) && Conforms(s, t)
    requires k < |t.kind.fields| && !t.kind.fields[k].typ.kind.Struct?
    requires var f := t.kind.fields[k];
             !CheckSupportedKind(f.typ.kind)
             || (Tags.NewTags(f.tag).Ok? && !Tags.NewTags(f.tag).value.overwrite)
    ensures Apply(t, d, s).0.fields[k] == d.fields[k]
  {
    ApplyFieldwise(t, d, s);
    var f := t.kind.fields[k];
    assert FieldFault(t, k).None? && LeafValue(f, d.fields[k], s.fields[k]) == d.fields[k];
    assert k != Stop(t, 0);
    assert Fieldwise(t, d, s, 0).0.fields[k] == d.fields[k];
  }

  /**
   * When the call returns nil and no struct field comes before it, a
   * supported field tagged true ends with the source value, except that with
   * omitempty a zero source value leaves it as it was. The value is copied
   * whole: a slice, array or map is replaced, never merged, and a nil source
   * slice or map makes the field nil.
   */
  lemma TaggedFieldResult(t: Type, d: Value, s: Value, k: nat)
    requires t.kind.Struct? && WellFormed(t) && Conforms(d, t) && Conforms(s, t)
    requires k < |t.kind.fields|
    requires forall j :: 0 <= j <= k ==> !t.kind.fields[j].typ.kind.Struct?
    requires var f := t.kind.fields[k];
             CheckSupportedKind(f.typ.kind)
             && Tags.NewTags(f.tag).Ok? && Tags.NewTags(f.tag).value.overwrite
    requires Apply(t, d, s).1 == None
    ensures Apply(t, d, s).0.fields[k] ==
              if Tags.NewTags(t.kind.fields[k].tag).value.omitempty && IsZero(s.fields[k])
              then d.fields[k] else s.fields[k]
  {
    ApplyFieldwise(t, d, s);
    assert k < Stop(t, 0);
  }

  /**
   * The first struct field p is where the walk at this level ends: every field
   * after it keeps its value, and when no field before it aborts, p takes the
   * value and the error of the recursive call on it, whatever its own tag.
   */
  lemma FirstStructEndsWalk(t: Type, d: Value, s: Value, p: nat)
    requires t.kind.Struct? && WellFormed(t) && Conforms(d, t) && Conforms(s, t)
    requires p < |t.kind.fields| && t.kind.fields[p].typ.kind.Struct?
    requires forall j :: 0 <= j < p ==> !t.kind.fields[j].typ.kind.Struct?
    ensures forall k :: p < k < |t.kind.fields| ==> Apply(t, d, s).0.fields[k] == d.fields[k]
    ensures (forall j :: 0 <= j < p ==> FieldFault(t, j).None?) ==>
              var ft := t.kind.fields[p].typ;
              Apply(t, d, s).0.fields[p] == Apply(ft, d.fields[p], s.fields[p]).0
              && Apply(t, d, s).1 == Apply(ft, d.fields[p], s.fields[p]).1
  {
    ApplyFieldwise(t, d, s);
    if forall j :: 0 <= j < p ==> FieldFault(t, j).None? {
      StopAt(t, 0, p);
    }
  }

  /**
   * A field that aborts the walk at this level: the fields before it have
   * been written as the rules say and stay so, it and the fields after it
   * keep their value, and its fault is the error.
   */
  lemma AbortKeepsEarlierWrites(t: Type, d: Value, s: Value, p: nat)
    requires t.kind.Struct? && WellFormed(t) && Conforms(d, t) && Conforms(s, t)
    requires p < |t.kind.fields| && FieldFault(t, p).Some?
    requires forall j :: 0 <= j < p ==>
               !t.kind.fields[j].typ.kind.Struct? && FieldFault(t, j).None?
    ensures Apply(t, d, s).1 == FieldFault(t, p)
    ensures forall k :: 0 <= k < p ==>
              Apply(t, d, s).0.fields[k] ==
              LeafValue(t.kind.fields[k], d.fields[k], s.fields[k])
    ensures forall k :: p <= k < |t.kind.fields| ==> Apply(t, d, s).0.fields[k] == d.fields[k]
  {
    ApplyFieldwise(t, d, s);
    StopAt(t, 0, p);
    var r := Fieldwise(t, d, s, 0);
    assert r.1 == FieldFault(t, p);
    assert forall k :: 0 <= k < p ==>
             r.0.fields[k] == LeafValue(t.kind.fields[k], d.fields[k], s.fields[k]);
    assert forall k :: p <= k < |t.kind.fields| ==> r.0.fields[k] == d.fields[k];
  }

  /**
   * The fault of a field depends on its declaration alone: a supported field
   * tagged true that is not exported fails, even when omitempty would have
   * skipped its zero source value.
   */
  lemma UnexportedTaggedFieldFails(t: Type, k: nat)
    requires t.kind.Struct? && WellFormed(t) && k < |t.kind.fields|
    requires var f := t.kind.fields[k];
             !f.typ.kind.Struct? && CheckSupportedKind(f.typ.kind) && !f.exported
             && Tags.NewTags(f.tag).Ok? && Tags.NewTags(f.tag).value.overwrite
    ensures FieldFault(t, k) == Some(CannotSetField)
  {
    CanSetIffExported(t, k);
  }

  /**
   * When no field stops the walk (no struct field, no failing tag), the call
   * succeeds and every field holds what its own tag gives it.
   */
  lemma WalkCompletes(t: Type, d: Value, s: Value)
    requires t.kind.Struct? && WellFormed(t) && Conforms(d, t) && Conforms(s, t)
    requires Stop(t, 0) == |t.kind.fields|
    ensures Apply(t, d, s).1 == None
    ensures forall k :: 0 <= k < |t.kind.fields| ==>
              Apply(t, d, s).0.fields[k] == LeafValue(t.kind.fields[k], d.fields[k], s.fields[k])
  {
    ApplyFieldwise(t, d, s);
  }

  /** Conversely, an exported leaf field with a tag that parses never fails. */
  lemma ExportedFieldPasses(t: Type, k: nat)
    requires t.kind.Struct? && WellFormed(t) && k < |t.kind.fields|
    requires var f := t.kind.fields[k];
             !f.typ.kind.Struct? && f.exported && Tags.NewTags(f.tag).Ok?
    ensures FieldFault(t, k) == None
  {
    CanSetIffExported(t, k);
  }

  /** Every field of `t` is an exported leaf of supported kind tagged plain `true`. */
  predicate AllTaggedTrue(t: Type)
    requires t.kind.Struct?
  {
    forall k :: 0 <= k < |t.kind.fields| ==>
      var f := t.kind.fields[k];
      !f.typ.kind.Struct? && CheckSupportedKind(f.typ.kind) && f.exported
      && Tags.NewTags(f.tag) == Ok(Tags.Tags(true, false))
  }

  /** No field of such a struct stops the walk. */
  lemma AllTaggedTrueNoStop(t: Type)
    requires t.kind.Struct? && WellFormed(t) && AllTaggedTrue(t)
    ensures Stop(t, 0) == |t.kind.fields|
  {
    forall k | 0 <= k < |t.kind.fields|
      ensures FieldFault(t, k).None?
    {
      ExportedFieldPasses(t, k);
    }
    StopAt(t, 0, |t.kind.fields|);
  }

  /**
   * When every field is tagged plain `true`, a call makes the destination
   * equal to the source, whatever either holds: slices, arrays and maps
   * included, a nil source slice or map included.
   */
  lemma EveryFieldCopied(t: Type, d: Value, s: Value)
    requires t.kind.Struct? && WellFormed(t) && Conforms(d, t) && Conforms(s, t)
    requires AllTaggedTrue(t)
    ensures Apply(t, d, s) == (s, None)
  {
    AllTaggedTrueNoStop(t);
    WalkCompletes(t, d, s);
    var r := Apply(t, d, s);
    forall k | 0 <= k < |t.kind.fields|
      ensures r.0.fields[k] == s.fields[k]
    {
    }
    assert r.0.fields == s.fields;
  }

  /**
   * The kind of error a call returns depends on the struct type alone, never
   * on the values of destination or source: omitempty only ever skips a
   * field, it never turns a failure into a success or back. (The message of
   * a CannotSetField error prints the field's value; that text is not
   * modelled.)
   */
  lemma {:induction false} ErrorDependsOnTypeOnly(t: Type, d: Value, s: Value, d2: Value, s2: Value)
    requires t.kind.Struct? && WellFormed(t)
    requires Conforms(d, t) && Conforms(s, t) && Conforms(d2, t) && Conforms(s2, t)
    ensures Apply(t, d, s).1 == Apply(t, d2, s2).1
    decreases t
  {
    ApplyFieldwise(t, d, s);
    ApplyFieldwise(t, d2, s2);
    var fs := t.kind.fields;
    var p := Stop(t, 0);
    if p < |fs| && fs[p].typ.kind.Struct? {
      ErrorDependsOnTypeOnly(fs[p].typ, d.fields[p], s.fields[p], d2.fields[p], s2.fields[p]);
    }
  }

  /** Applying the rules to a field twice is applying them once. */
  lemma LeafValueTwice(f: Field, dk: Value, sk: Value)
    ensures LeafValue(f, LeafValue(f, dk, sk), sk) == LeafValue(f, dk, sk)
  {
  }

  /**
   * A second call with the same source leaves the destination as the first
   * call left it and returns the same error: every write assigns a source
   * value, and which fields are written depends on the type and the source.
   */
  lemma {:induction false} ApplyIdempotent(t: Type, d: Value, s: Value)
    requires t.kind.Struct? && WellFormed(t) && Conforms(d, t) && Conforms(s, t)
    ensures Apply(t, Apply(t, d, s).0, s) == Apply(t, d, s)
    decreases t
  {
    var fs := t.kind.fields;
    var p := Stop(t, 0);
    var r := Apply(t, d, s);
    var r2 := Apply(t, r.0, s);
    ApplyFieldwise(t, d, s);
    ApplyFieldwise(t, r.0, s);
    if p < |fs| && fs[p].typ.kind.Struct? {
      ApplyIdempotent(fs[p].typ, d.fields[p], s.fields[p]);
    }
    forall k | 0 <= k < |fs|
      ensures r2.0.fields[k] == r.0.fields[k]
    {
      if k < p {
        LeafValueTwice(fs[k], d.fields[k], s.fields[k]);
      }
    }
    assert r2.0.fields == r.0.fields;
  }

  /** The struct type `t` with the tag of field `k` replaced by `tag`. */
  function Retag(t: Type, k: nat, tag: string): (t2: Type)
    requires t.kind.Struct? && k < |t.kind.fields|
    ensures t2.kind.Struct? && |t2.kind.fields| == |t.kind.fields|
    ensures t2.kind.fields[k].tag == tag
    ensures forall j :: 0 <= j < |t.kind.fields| && j != k ==> t2.kind.fields[j] == t.kind.fields[j]
    ensures forall j :: 0 <= j < |t.kind.fields| ==>
              t2.kind.fields[j].name == t.kind.fields[j].name && t2.kind.fields[j].typ == t.kind.fields[j].typ
              && t2.kind.fields[j].exported == t.kind.fields[j].exported
  {
    var fs := t.kind.fields;
    Type(t.name, Struct(fs[k := fs[k].(tag := tag)]))
  }

  /** A lookup by name sees only the names of the fields. */
  lemma {:induction false} FieldIndexSameNames(fs: seq<Field>, gs: seq<Field>, name: string, from: nat)
    requires |fs| == |gs| && from <= |fs|
    requires forall j :: 0 <= j < |fs| ==> fs[j].name == gs[j].name
    ensures FieldIndex(fs, name, from) == FieldIndex(gs, name, from)
    decreases |fs| - from
  {
    if from < |fs| && fs[from].name != name {
      FieldIndexSameNames(fs, gs, name, from + 1);
    }
  }

  /** Where the walk stops depends on no tag but those of supported leaf fields. */
  lemma {:induction false} StopSameFaults(t: Type, t2: Type, i: nat)
    requires t.kind.Struct? && t2.kind.Struct? && |t.kind.fields| == |t2.kind.fields|
    requires i <= |t.kind.fields|
    requires forall j :: 0 <= j < |t.kind.fields| ==>
               t2.kind.fields[j].typ == t.kind.fields[j].typ && FieldFault(t2, j) == FieldFault(t, j)
    ensures Stop(t2, i) == Stop(t, i)
    decreases |t.kind.fields| - i
  {
    if i < |t.kind.fields| && !t.kind.fields[i].typ.kind.Struct? && FieldFault(t, i).None? {
      assert FieldFault(t2, i).None?;
      StopSameFaults(t, t2, i + 1);
    }
  }

  /** Retagging keeps names, types and exportedness, so it keeps what they decide. */
  lemma RetagConforms(t: Type, k: nat, tag: string, v: Value)
    requires t.kind.Struct? && WellFormed(t) && Conforms(v, t) && k < |t.kind.fields|
    ensures WellFormed(Retag(t, k, tag)) && Conforms(v, Retag(t, k, tag))
  {
  }

  /** A tag that is never read changes no field's fault. */
  lemma RetagFaults(t: Type, k: nat, tag: string)
    requires t.kind.Struct? && k < |t.kind.fields|
    requires t.kind.fields[k].typ.kind.Struct? || !CheckSupportedKind(t.kind.fields[k].typ.kind)
    ensures forall j :: 0 <= j < |t.kind.fields| ==> FieldFault(Retag(t, k, tag), j) == FieldFault(t, j)
    ensures Stop(Retag(t, k, tag), 0) == Stop(t, 0)
  {
    var t2 := Retag(t, k, tag);
    var fs, gs := t.kind.fields, t2.kind.fields;
    forall j | 0 <= j < |fs|
      ensures FieldFault(t2, j) == FieldFault(t, j)
    {
      FieldIndexSameNames(fs, gs, fs[j].name, 0);
      assert CheckCanSet(t2, fs[j].name) == CheckCanSet(t, fs[j].name);
    }
    StopSameFaults(t, t2, 0);
  }

  /**
   * The tag of a struct field, or of a field of a kind Do does not support,
   * is never read: changing it changes neither what a call writes nor the
   * error it returns.
   */
  lemma IgnoredTagIrrelevant(t: Type, k: nat, tag: string, d: Value, s: Value)
    requires t.kind.Struct? && WellFormed(t) && Conforms(d, t) && Conforms(s, t)
    requires k < |t.kind.fields|
    requires t.kind.fields[k].typ.kind.Struct? || !CheckSupportedKind(t.kind.fields[k].typ.kind)
    ensures WellFormed(Retag(t, k, tag)) && Conforms(d, Retag(t, k, tag)) && Conforms(s, Retag(t, k, tag))
    ensures Apply(Retag(t, k, tag), d, s) == Apply(t, d, s)
  {
    var t2 := Retag(t, k, tag);
    var fs, gs := t.kind.fields, t2.kind.fields;
    RetagConforms(t, k, tag, d);
    RetagConforms(t, k, tag, s);
    RetagFaults(t, k, tag);
    ApplyFieldwise(t, d, s);
    ApplyFieldwise(t2, d, s);
    var p := Stop(t, 0);
    var r, r2 := Fieldwise(t, d, s, 0), Fieldwise(t2, d, s, 0);
    forall j | 0 <= j < |fs|
      ensures r2.0.fields[j] == r.0.fields[j]
    {
      assert j != k ==> gs[j] == fs[j];
    }
    assert r2.0.fields == r.0.fields;
    assert r2.1 == r.1;
  }
}
